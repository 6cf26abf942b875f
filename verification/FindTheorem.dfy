/** Whole SELECTs: how they are routed, and what the Finds among them return (plan.go, render_find.go). */
module FindTheorem {
  import opened Wrappers
  import opened Bson
  import opened Sql
  import opened Compiler
  import opened ValueTheorem
  import opened WhereTheorem
  import JoinTheorem
  import opened Select
  import opened Ordering
  import opened Render
  import opened RenderTheorem
  import opened InsertSelect
  import M = Mongo
  import W = Where
  import Source
  import Seqs

  // ----- planning and rendering -----

  datatype Statement = Found(find: FindStmt) | Aggregated(agg: AggregateStmt)

  /** WHERE and ORDER BY are translated for a Find in any case, and then perhaps once more. */
  function Translate(q: Query, print_: Expr -> string): Result<Statement> {
    var p :- Source.ExtractFromPlan(q.from);
    var filter :- if q.where_.Some? then W.TranslateWhere(q.where_.value) else Success(M.Everything);
    var sort :- FindSort(q.orderBy);
    if UsesAggregation(q, p.joins) then
      var a :- BuildAggregate(q, print_);
      Success(Aggregated(a))
    else
      var f :- BuildFind(q, p.main);
      Success(Found(f))
  }

  predicate SortsBy(keys: seq<M.SortKey>, orders: seq<Order>) {
    |keys| == |orders|
    && forall i :: 0 <= i < |keys| ==>
                     orders[i].e.Col?
                     && keys[i] == M.SortKey(PathOf(orders[i].e.qual, orders[i].e.name, ""), orders[i].descending)
  }

  /** ORDER BY is accepted exactly if it names columns only, and gives their keys in order. */
  lemma {:induction false} FindSortExactly(orders: seq<Order>)
    ensures FindSort(orders).Success? <==> forall o :: o in orders ==> o.e.Col?
    ensures FindSort(orders).Success? ==> SortsBy(FindSort(orders).value, orders)
  {
    if orders != [] {
      var n := |orders| - 1;
      FindSortExactly(orders[..n]);
      assert forall o :: o in orders <==> o in orders[..n] || o == orders[n];
    }
  }

  lemma {:induction false} OrderedByColumns(orders: seq<Order>, items: seq<SelectItem>, main: string)
    requires forall o :: o in orders ==> o.e.Col?
    ensures OrderKeys(orders, items, main).Success? && OrderKeys(orders, items, main) == OrderKeys(orders, [], main)
  {
    if orders != [] {
      OrderedByColumns(orders[..|orders| - 1], items, main);
    }
  }

  /** A SELECT that is translated orders by columns only: no alias of its select list is ever looked up. */
  lemma {:induction false} AliasesUnused(q: Query, print_: Expr -> string, items: seq<SelectItem>, main: string)
    requires Translate(q, print_).Success?
    ensures forall o :: o in q.orderBy ==> o.e.Col?
    ensures OrderKeys(q.orderBy, items, main).Success? && OrderKeys(q.orderBy, items, main) == OrderKeys(q.orderBy, [], main)
  {
    FindSortExactly(q.orderBy);
    OrderedByColumns(q.orderBy, items, main);
  }

  /** What becomes a Find reads a single table. */
  lemma {:induction false} FindsReadOneTable(q: Query, print_: Expr -> string)
    requires Translate(q, print_).Success? && Translate(q, print_).value.Found?
    ensures q.from.Table? && q.groupBy.None? && q.having.None?
    ensures !PlanItemsOf(q.exprs).hasAgg && !PlanItemsOf(q.exprs).hasExpr
  {
  }

  // ----- SQL's result of a SELECT from one table -----

  /** The columns of a record, as SQL sees them. */
  function TableEnv(main: string): Document -> Env {
    (d: Document) => JoinTheorem.EnvOf(map[main := Some(d)], main)
  }

  /** The columns of a record, if every qualified one were NULL. */
  function BlindEnv(): Document -> Env {
    (d: Document) => Env((q: string, n: string) => if q == "" && n in d then NullOf(d[n]) else Null, (a: AggSpec) => Null)
  }

  function Passes(where_: Option<Expr>, read: Document -> Env): Document -> bool {
    (d: Document) => where_.None? || IsTrueOf(Eval(where_.value, read(d)))
  }

  /** ORDER BY, the first column first. */
  predicate SqlBefore(orders: seq<Order>, a: Env, b: Env) {
    orders != [] && orders[0].e.Col?
    && var x, y := a.col(orders[0].e.qual, orders[0].e.name), b.col(orders[0].e.qual, orders[0].e.name);
       if orders[0].descending then Less(y, x) || (x == y && SqlBefore(orders[1..], a, b))
       else Less(x, y) || (x == y && SqlBefore(orders[1..], a, b))
  }

  function Sooner(orders: seq<Order>, read: Document -> Env): (Document, Document) -> bool {
    (a: Document, b: Document) => SqlBefore(orders, read(a), read(b))
  }

  /** The records that pass WHERE, as ORDER BY puts them. */
  function InSqlOrder(q: Query, read: Document -> Env, coll: seq<Document>): seq<Document> {
    SortBy(Sooner(q.orderBy, read), Seqs.Filter(Passes(q.where_, read), coll))
  }

  /** Those that LIMIT leaves of them. */
  function Chosen(q: Query, read: Document -> Env, coll: seq<Document>): seq<Document> {
    SqlLimited(q, InSqlOrder(q, read, coll))
  }

  function ItemValues(items: seq<SelectItem>, read: Document -> Env): Document -> seq<Value> {
    (d: Document) => Seqs.Map(ItemValueIn(read(d)), items)
  }

  function ItemValueIn(env: Env): SelectItem -> Value {
    (item: SelectItem) => if item.FieldItem? then env.col(item.qual, item.name) else Null
  }

  /** A returned document as the client sees it: each column under its path, whatever its alias. */
  function ShownItems(items: seq<SelectItem>): Document -> seq<Value> {
    (d: Document) => Seqs.Map(ShownItem(d), items)
  }

  function ShownItem(d: Document): SelectItem -> Value {
    (item: SelectItem) => if item.FieldItem? then NullOf(Get(d, FieldPath(item.qual, item.name))) else Null
  }

  // ----- the rows chosen -----

  /** The document holds what WHERE and ORDER BY read, and WHERE lies in the fragment of its theorem. */
  ghost predicate RowFits(q: Query, d: Document, env: Env) {
    (q.where_.Some? ==>
       Plain(q.where_.value) && Represents(d, env, "", Cols(q.where_.value)) && Fits(q.where_.value, true, env, d))
    && forall o :: o in q.orderBy ==> o.e.Col? && ColumnAgrees(d, env, "", (o.e.qual, o.e.name))
  }

  lemma {:induction false} BeforeIsSql(keys: seq<M.SortKey>, orders: seq<Order>, a: Document, b: Document, x: Env, y: Env)
    requires SortsBy(keys, orders)
    requires forall o :: o in orders ==>
                           o.e.Col? && ColumnAgrees(a, x, "", (o.e.qual, o.e.name)) && ColumnAgrees(b, y, "", (o.e.qual, o.e.name))
    ensures M.Before(keys, a, b) == SqlBefore(orders, x, y)
    decreases |keys|
  {
    if keys != [] {
      assert orders[0] in orders;
      assert forall o :: o in orders[1..] ==> o in orders;
      BeforeIsSql(keys[1..], orders[1..], a, b, x, y);
    }
  }

  /** Filtered, the documents are the rows that pass. */
  lemma {:induction false} FindFilters(q: Query, f: M.Filter, read: Document -> Env, coll: seq<Document>)
    requires (if q.where_.Some? then W.TranslateWhere(q.where_.value) else Success(M.Everything)) == Success(f)
    requires forall d :: d in coll ==> RowFits(q, d, read(d))
    ensures Seqs.Filter(M.Matcher(f), coll) == Seqs.Filter(Passes(q.where_, read), coll)
  {
    forall d | d in coll
      ensures M.Matcher(f)(d) == Passes(q.where_, read)(d)
    {
      if q.where_.Some? {
        WhereExact(q.where_.value, read(d), d);
      }
    }
    Seqs.FilterCong(M.Matcher(f), Passes(q.where_, read), coll);
  }

  /** Filtered and sorted, the documents are SQL's rows. */
  lemma {:induction false} FindSorts(q: Query, f: M.Filter, sort: seq<M.SortKey>, read: Document -> Env, coll: seq<Document>)
    requires (if q.where_.Some? then W.TranslateWhere(q.where_.value) else Success(M.Everything)) == Success(f)
    requires FindSort(q.orderBy) == Success(sort) && forall d :: d in coll ==> RowFits(q, d, read(d))
    ensures M.SortDocs(sort, Seqs.Filter(M.Matcher(f), coll))
            == SortBy(Sooner(q.orderBy, read), Seqs.Filter(Passes(q.where_, read), coll))
  {
    FindFilters(q, f, read, coll);
    var kept := Seqs.Filter(Passes(q.where_, read), coll);
    FindSortExactly(q.orderBy);
    forall a, b | a in kept && b in kept
      ensures M.Comes(sort)(Same(a), Same(b)) == Sooner(q.orderBy, read)(a, b)
    {
      BeforeIsSql(sort, q.orderBy, a, b, read(a), read(b));
    }
    SortMap(Sooner(q.orderBy, read), M.Comes(sort), Same, kept);
    MapSame(kept);
    MapSame(SortBy(Sooner(q.orderBy, read), kept));
  }

  function Same(d: Document): Document {
    d
  }

  lemma {:induction false} MapSame(s: seq<Document>)
    ensures Seqs.Map(Same, s) == s
  {
  }

  lemma {:induction false} FindParts(q: Query, main: Source.SourceRef)
    requires BuildFind(q, main).Success?
    ensures var f := BuildFind(q, main).value;
            (if q.where_.Some? then W.TranslateWhere(q.where_.value) else Success(M.Everything)) == Success(f.filter)
            && FindSort(q.orderBy) == Success(f.sort)
            && f.skip == OffsetOf(q) && f.limit == LimitOf(q) && f.empty == IsLimitZero(q)
  {
  }

  /** A Find projects the rows SQL chooses. */
  lemma {:induction false} FindChooses(q: Query, main: Source.SourceRef, read: Document -> Env, coll: seq<Document>)
    requires BuildFind(q, main).Success? && BuildFind(q, main).value.distinct.None? && forall d :: d in coll ==> RowFits(q, d, read(d))
    ensures FindDocs(BuildFind(q, main).value, coll)
            == Seqs.Map(M.Projector(BuildFind(q, main).value.projection), Chosen(q, read, coll))
  {
    var f := BuildFind(q, main).value;
    FindParts(q, main);
    FindSorts(q, f.filter, f.sort, read, coll);
    LimitedIs(q, InSqlOrder(q, read, coll));
  }

  /** SELECT *: the rows chosen, but for `_id`. */
  lemma {:induction false} FindStarCorrect(q: Query, main: Source.SourceRef, read: Document -> Env, coll: seq<Document>)
    requires BuildFind(q, main).Success? && BuildFind(q, main).value.distinct.None? && forall d :: d in coll ==> RowFits(q, d, read(d))
    requires PlanItemsOf(q.exprs).hasStar
    ensures FindDocs(BuildFind(q, main).value, coll) == Seqs.Map(WithoutId, Chosen(q, read, coll))
  {
    FindChooses(q, main, read, coll);
    forall d | d in Chosen(q, read, coll)
      ensures M.Projector(StarProjection())(d) == WithoutId(d)
    {
      assert !M.KeepsOnly(StarProjection());
      assert StarProjection().Keys == {"_id"};
    }
    Seqs.MapCong(M.Projector(StarProjection()), WithoutId, Chosen(q, read, coll));
  }

  function WithoutId(d: Document): Document {
    d - {"_id"}
  }

  /** SELECT DISTINCT * keeps its duplicates: right exactly if there are none as far as LIMIT reaches. */
  lemma {:induction false} StarDistinctExactly(q: Query, main: Source.SourceRef, read: Document -> Env, coll: seq<Document>)
    requires BuildFind(q, main).Success? && PlanItemsOf(q.exprs).hasStar && forall d :: d in coll ==> RowFits(q, d, read(d))
    ensures BuildFind(q, main).value.distinct.None?
    ensures var selected := Seqs.Map(WithoutId, InSqlOrder(q, read, coll));
            FindDocs(BuildFind(q, main).value, coll) == SqlLimited(q, Seqs.Distinct(selected)) <==> DistinctHarmless(q, selected)
  {
    FindStarCorrect(q, main, read, coll);
    LimitedMap(q, WithoutId, InSqlOrder(q, read, coll));
    LimitedDistinctExactly(q, Seqs.Map(WithoutId, InSqlOrder(q, read, coll)));
  }

  // ----- the select list -----

  /** A column that the document holds; a qualifier is not the name of an embedded document. */
  predicate ItemRead(item: SelectItem, d: Document, env: Env) {
    item.FieldItem? && GoodName(item.name) && ColumnAgrees(d, env, "", (item.qual, item.name))
    && (item.qual != "" ==> GoodName(item.qual) && !(item.qual in d && d[item.qual].Doc?))
  }

  lemma {:induction false} PathsAre(items: seq<SelectItem>)
    requires ItemPaths(items).Success?
    ensures |ItemPaths(items).value| == |items|
    ensures forall i :: 0 <= i < |items| ==>
                          items[i].FieldItem? && ItemPaths(items).value[i] == FieldPath(items[i].qual, items[i].name)
  {
    if items != [] {
      PathsAre(items[..|items| - 1]);
    }
  }

  lemma {:induction false} ItemShown(paths: seq<string>, item: SelectItem, d: Document, env: Env)
    requires ItemRead(item, d, env) && FieldPath(item.qual, item.name) in paths
    ensures ShownItem(M.ProjectDoc(FindProjection(paths), d))(item) == ItemValueIn(env)(item)
  {
    var out := M.ProjectDoc(FindProjection(paths), d);
    if item.qual == "" {
      ListedExactly(paths, item.name);
      KeptField(FindProjection(paths), item.name, d);
    } else {
      GetQualified(d, item.qual, item.name);
      assert item.qual in out ==> out[item.qual] == d[item.qual];
      GetQualified(out, item.qual, item.name);
    }
  }

  /** A Find returns SQL's rows, as far as its documents hold the columns that it reads. */
  lemma {:induction false} FindCorrect(q: Query, main: Source.SourceRef, read: Document -> Env, coll: seq<Document>)
    requires BuildFind(q, main).Success? && BuildFind(q, main).value.distinct.None? && !PlanItemsOf(q.exprs).hasStar
    requires forall d :: d in coll ==>
                           RowFits(q, d, read(d)) && forall item :: item in PlanItemsOf(q.exprs).items ==> ItemRead(item, d, read(d))
    ensures var items := PlanItemsOf(q.exprs).items;
            Seqs.Map(ShownItems(items), FindDocs(BuildFind(q, main).value, coll))
            == Seqs.Map(ItemValues(items, read), Chosen(q, read, coll))
  {
    FindChooses(q, main, read, coll);
    ChosenIn(q, read, coll);
    RowsShown(PlanItemsOf(q.exprs).items, read, Chosen(q, read, coll));
  }

  lemma {:induction false} RowsShown(items: seq<SelectItem>, read: Document -> Env, chosen: seq<Document>)
    requires ItemPaths(items).Success?
    requires forall d :: d in chosen ==> forall item :: item in items ==> ItemRead(item, d, read(d))
    ensures Seqs.Map(ShownItems(items), Seqs.Map(M.Projector(FindProjection(ItemPaths(items).value)), chosen))
            == Seqs.Map(ItemValues(items, read), chosen)
  {
    var spec := FindProjection(ItemPaths(items).value);
    forall d | d in chosen
      ensures ItemValues(items, read)(d) == ShownItems(items)(M.Projector(spec)(d))
    {
      RowShown(items, d, read(d));
    }
    Seqs.MapMap(ShownItems(items), M.Projector(spec), ItemValues(items, read), chosen);
  }

  lemma {:induction false} RowShown(items: seq<SelectItem>, d: Document, env: Env)
    requires ItemPaths(items).Success? && forall item :: item in items ==> ItemRead(item, d, env)
    ensures Seqs.Map(ShownItem(M.ProjectDoc(FindProjection(ItemPaths(items).value), d)), items) == Seqs.Map(ItemValueIn(env), items)
  {
    var paths := ItemPaths(items).value;
    PathsAre(items);
    forall item | item in items
      ensures ShownItem(M.ProjectDoc(FindProjection(paths), d))(item) == ItemValueIn(env)(item)
    {
      var i :| 0 <= i < |items| && items[i] == item;
      assert paths[i] in paths;
      ItemShown(paths, item, d, env);
    }
    Seqs.MapCong(ShownItem(M.ProjectDoc(FindProjection(paths), d)), ItemValueIn(env), items);
  }

  lemma {:induction false} ChosenIn(q: Query, read: Document -> Env, coll: seq<Document>)
    ensures forall d :: d in Chosen(q, read, coll) ==> d in coll
  {
    SortHolds(Sooner(q.orderBy, read), Seqs.Filter(Passes(q.where_, read), coll));
  }

  // ----- SQL's rows, for unqualified columns -----

  function OrderColumns(orders: seq<Order>): set<(string, string)> {
    set o | o in orders && o.e.Col? :: (o.e.qual, o.e.name)
  }

  function ItemColumns(items: seq<SelectItem>): set<(string, string)> {
    set item | item in items && item.FieldItem? :: (item.qual, item.name)
  }

  function ColumnsOf(q: Query): set<(string, string)> {
    (if q.where_.Some? then Cols(q.where_.value) else {}) + OrderColumns(q.orderBy) + ItemColumns(PlanItemsOf(q.exprs).items)
  }

  /** Columns hold scalars, and WHERE lies in the fragment of its theorem. */
  ghost predicate TableFits(q: Query, d: Document, env: Env) {
    (q.where_.Some? ==> Plain(q.where_.value) && Fits(q.where_.value, true, env, d))
    && forall c :: c in ColumnsOf(q) ==> GoodName(c.1) && IsScalar(env.col(c.0, c.1))
  }

  lemma {:induction false} Read(q: Query, main: Source.SourceRef, d: Document, env: Env)
    requires BuildFind(q, main).Success? && TableFits(q, d, env)
    requires forall c :: c in ColumnsOf(q) ==> ColumnAgrees(d, env, "", c)
    requires forall c :: c in ColumnsOf(q) && c.0 != "" ==> GoodName(c.0) && !(c.0 in d && d[c.0].Doc?)
    ensures RowFits(q, d, env)
    ensures !PlanItemsOf(q.exprs).hasStar ==> forall item :: item in PlanItemsOf(q.exprs).items ==> ItemRead(item, d, env)
  {
    FindSortExactly(q.orderBy);
    forall o | o in q.orderBy
      ensures ColumnAgrees(d, env, "", (o.e.qual, o.e.name))
    {
      assert (o.e.qual, o.e.name) in OrderColumns(q.orderBy);
    }
    var items := PlanItemsOf(q.exprs).items;
    if !PlanItemsOf(q.exprs).hasStar {
      PathsAre(items);
      forall item | item in items
        ensures ItemRead(item, d, env)
      {
        var i :| 0 <= i < |items| && items[i] == item;
        assert (item.qual, item.name) in ItemColumns(items);
      }
    }
  }

  /** A plain SELECT that names its columns without a qualifier returns SQL's rows, in order. */
  lemma {:induction false} FindIsSql(q: Query, main: Source.SourceRef, coll: seq<Document>)
    requires BuildFind(q, main).Success? && BuildFind(q, main).value.distinct.None? && !PlanItemsOf(q.exprs).hasStar
    requires forall c :: c in ColumnsOf(q) ==> c.0 == ""
    requires forall d :: d in coll ==> TableFits(q, d, TableEnv(main.alias)(d))
    ensures var items, read := PlanItemsOf(q.exprs).items, TableEnv(main.alias);
            Seqs.Map(ShownItems(items), FindDocs(BuildFind(q, main).value, coll))
            == Seqs.Map(ItemValues(items, read), Chosen(q, read, coll))
  {
    forall d | d in coll
      ensures RowFits(q, d, TableEnv(main.alias)(d))
      ensures forall item :: item in PlanItemsOf(q.exprs).items ==> ItemRead(item, d, TableEnv(main.alias)(d))
    {
      forall c | c in ColumnsOf(q)
        ensures ColumnAgrees(d, TableEnv(main.alias)(d), "", c)
      {
        GetName(d, c.1);
      }
      Read(q, main, d, TableEnv(main.alias)(d));
    }
    FindCorrect(q, main, TableEnv(main.alias), coll);
  }

  // ----- qualified columns -----

  /** No embedded document is named like a qualifier. */
  predicate NotEmbedded(cols: set<(string, string)>, d: Document) {
    forall c :: c in cols && c.0 != "" ==> GoodName(c.0) && !(c.0 in d && d[c.0].Doc?)
  }

  lemma {:induction false} BlindReads(c: (string, string), d: Document)
    requires GoodName(c.1) && (c.0 != "" ==> GoodName(c.0) && !(c.0 in d && d[c.0].Doc?))
    requires IsScalar(BlindEnv()(d).col(c.0, c.1))
    ensures ColumnAgrees(d, BlindEnv()(d), "", c)
  {
    GetName(d, c.1);
    if c.0 != "" {
      GetQualified(d, c.0, c.1);
    }
  }

  /** With qualifiers a Find returns what SQL would if every qualified column were NULL. */
  lemma {:induction false} QualifiedReadNull(q: Query, main: Source.SourceRef, coll: seq<Document>)
    requires BuildFind(q, main).Success? && BuildFind(q, main).value.distinct.None? && !PlanItemsOf(q.exprs).hasStar
    requires forall d :: d in coll ==> NotEmbedded(ColumnsOf(q), d) && TableFits(q, d, BlindEnv()(d))
    ensures var items, read := PlanItemsOf(q.exprs).items, BlindEnv();
            Seqs.Map(ShownItems(items), FindDocs(BuildFind(q, main).value, coll))
            == Seqs.Map(ItemValues(items, read), Chosen(q, read, coll))
  {
    forall d | d in coll
      ensures RowFits(q, d, BlindEnv()(d))
      ensures forall item :: item in PlanItemsOf(q.exprs).items ==> ItemRead(item, d, BlindEnv()(d))
    {
      forall c | c in ColumnsOf(q)
        ensures ColumnAgrees(d, BlindEnv()(d), "", c)
      {
        BlindReads(c, d);
      }
      Read(q, main, d, BlindEnv()(d));
    }
    FindCorrect(q, main, BlindEnv(), coll);
  }

  /** The path of a column qualified by its own table reads it exactly if the column is NULL. */
  lemma {:induction false} QualifiedExactly(t: string, n: string, d: Document)
    requires GoodName(t) && GoodName(n) && !(t in d && d[t].Doc?)
    ensures NullOf(Get(d, FieldPath(t, n))) == TableEnv(t)(d).col(t, n) <==> TableEnv(t)(d).col(t, n) == Null
  {
    GetQualified(d, t, n);
  }

  /** No value of its type is less than the least, or greater than the greatest. */
  predicate ComparesNothing(op: CmpOp, w: Value) {
    (op == Lt && (w == Str("") || w == Bool(false))) || (op == Gt && w == Bool(true))
  }

  /** A value that the comparison holds for. */
  function Comparable(op: CmpOp, w: Value): Value {
    match w
    case Num(n) => if op == Lt then Num(n - 1.0) else if op == Gt || op == Ne then Num(n + 1.0) else w
    case Str(s) => if op == Lt then Str("") else if op == Gt || op == Ne then Str(s + "a") else w
    case Bool(b) => if op == Lt || op == Gt || op == Ne then Bool(!b) else w
    case _ => w
  }

  lemma {:induction false} StrLessLonger(s: string, c: char)
    ensures StrLess(s, s + [c]) && !StrLess(s, "") && (s != [] ==> StrLess("", s))
  {
    if s != [] {
      assert (s + [c])[1..] == s[1..] + [c];
      StrLessLonger(s[1..], c);
    }
  }

  lemma {:induction false} ComparableHolds(op: CmpOp, w: Value)
    requires W.ExprOp(op).Some? && (w.Num? || w.Str? || w.Bool?)
    ensures IsTrueOf(Comparison(op, Ok(Comparable(op, w)), Ok(w))) <==> !ComparesNothing(op, w)
  {
    if w.Str? {
      StrLessLonger(w.s, 'a');
      assert Comparable(op, w).Str? && (op == Ne ==> |Comparable(op, w).s| == |w.s| + 1);
    }
    LessTrichotomy(w, w);
  }

  lemma {:induction false} NothingHolds(op: CmpOp, v: Value, w: Value)
    requires ComparesNothing(op, w)
    ensures !IsTrueOf(Comparison(op, Ok(v), Ok(w)))
  {
    if v.Str? { StrLessLonger(v.s, 'a'); }
  }

  predicate RecordsOnly(t: string, coll: seq<Document>) {
    forall d: Document :: d in coll ==> !(t in d && d[t].Doc?)
  }

  /** WHERE t.a compared with a value in a Find is right on every collection exactly if no value at all compares so. */
  lemma {:induction false} QualifiedComparisonExactly(op: CmpOp, t: string, n: string, r: Expr)
    requires W.ExprOp(op).Some? && GoodName(t) && GoodName(n) && W.IsConstant(r) && !r.NullLit? && Plain(r)
    ensures W.TranslateWhere(Compare(op, Col(t, n), r)).Success? && StaticValue(r).Success?
    ensures (forall coll :: RecordsOnly(t, coll) ==>
                              Seqs.Filter(M.Matcher(W.TranslateWhere(Compare(op, Col(t, n), r)).value), coll)
                              == Seqs.Filter(Passes(Some(Compare(op, Col(t, n), r)), TableEnv(t)), coll))
            <==> ComparesNothing(op, ToBson(StaticValue(r).value))
  {
    if ComparesNothing(op, ToBson(StaticValue(r).value)) {
      forall coll | RecordsOnly(t, coll)
        ensures Seqs.Filter(M.Matcher(W.TranslateWhere(Compare(op, Col(t, n), r)).value), coll)
                == Seqs.Filter(Passes(Some(Compare(op, Col(t, n), r)), TableEnv(t)), coll)
      {
        QualifiedFindsNone(op, t, n, r, coll);
        SqlFindsNone(op, t, n, r, coll);
      }
    } else {
      var d: Document := map[n := Comparable(op, ToBson(StaticValue(r).value))];
      QualifiedFindsNone(op, t, n, r, [d]);
      SqlFindsOne(op, t, n, r, d);
    }
  }

  lemma {:induction false} SqlFindsNone(op: CmpOp, t: string, n: string, r: Expr, coll: seq<Document>)
    requires W.IsConstant(r) && Plain(r) && StaticValue(r).Success? && ComparesNothing(op, ToBson(StaticValue(r).value))
    ensures Seqs.Filter(Passes(Some(Compare(op, Col(t, n), r)), TableEnv(t)), coll) == []
  {
    forall d | d in coll
      ensures !Passes(Some(Compare(op, Col(t, n), r)), TableEnv(t))(d)
    {
      QualifiedMeaning(op, t, n, r, d);
      NothingHolds(op, TableEnv(t)(d).col(t, n), ToBson(StaticValue(r).value));
    }
    NoneLeft(Passes(Some(Compare(op, Col(t, n), r)), TableEnv(t)), coll);
  }

  lemma {:induction false} SqlFindsOne(op: CmpOp, t: string, n: string, r: Expr, d: Document)
    requires W.ExprOp(op).Some? && GoodName(t) && W.IsConstant(r) && !r.NullLit? && Plain(r) && StaticValue(r).Success?
    requires !ComparesNothing(op, ToBson(StaticValue(r).value)) && d == map[n := Comparable(op, ToBson(StaticValue(r).value))]
    ensures RecordsOnly(t, [d]) && Seqs.Filter(Passes(Some(Compare(op, Col(t, n), r)), TableEnv(t)), [d]) != []
  {
    QualifiedMeaning(op, t, n, r, d);
    ComparableHolds(op, ToBson(StaticValue(r).value));
    assert d in [d] && d in Seqs.Filter(Passes(Some(Compare(op, Col(t, n), r)), TableEnv(t)), [d]);
  }

  lemma {:induction false} QualifiedMeaning(op: CmpOp, t: string, n: string, r: Expr, d: Document)
    requires W.IsConstant(r) && Plain(r) && StaticValue(r).Success?
    ensures Passes(Some(Compare(op, Col(t, n), r)), TableEnv(t))(d)
            == IsTrueOf(Comparison(op, Ok(TableEnv(t)(d).col(t, n)), Ok(ToBson(StaticValue(r).value))))
  {
    assert Eval(Col(t, n), TableEnv(t)(d)) == Ok(TableEnv(t)(d).col(t, n));
    assert Eval(r, TableEnv(t)(d)) == Ok(ToBson(StaticValue(r).value));
  }

  lemma {:induction false} QualifiedFindsNone(op: CmpOp, t: string, n: string, r: Expr, coll: seq<Document>)
    requires W.ExprOp(op).Some? && GoodName(t) && GoodName(n) && W.IsConstant(r) && !r.NullLit? && Plain(r)
    requires RecordsOnly(t, coll)
    ensures W.TranslateWhere(Compare(op, Col(t, n), r)).Success? && StaticValue(r).Success?
    ensures Seqs.Filter(M.Matcher(W.TranslateWhere(Compare(op, Col(t, n), r)).value), coll) == []
  {
    var e := Compare(op, Col(t, n), r);
    StaticConstant(r);
    forall d | d in coll
      ensures !M.Matcher(W.TranslateWhere(e).value)(d)
    {
      QualifiedFindsNot(op, t, n, r, d);
    }
    NoneLeft(M.Matcher(W.TranslateWhere(e).value), coll);
  }

  lemma {:induction false} StaticConstant(r: Expr)
    requires W.IsConstant(r)
    ensures StaticValue(r).Success?
  {
  }

  lemma {:induction false} QualifiedFindsNot(op: CmpOp, t: string, n: string, r: Expr, d: Document)
    requires W.ExprOp(op).Some? && GoodName(t) && GoodName(n) && W.IsConstant(r) && !r.NullLit? && Plain(r)
    requires RecordsOnly(t, [d])
    ensures W.TranslateWhere(Compare(op, Col(t, n), r)).Success?
    ensures !M.Matches(W.TranslateWhere(Compare(op, Col(t, n), r)).value, d)
  {
    assert d in [d];
    GetQualified(d, t, n);
    assert Cols(Col(t, n)) == {(t, n)};
    BlindTest(op, t, n, r, d);
    ConstantLeaf(op, Col(t, n), r, BlindEnv()(d), d);
  }

  /** NULL compared with a value is not TRUE. */
  lemma {:induction false} BlindTest(op: CmpOp, t: string, n: string, r: Expr, d: Document)
    requires W.ExprOp(op).Some? && t != "" && W.IsConstant(r) && !r.NullLit? && Plain(r)
    ensures Eval(Compare(op, Col(t, n), r), BlindEnv()(d)).Ok? && !IsTrueOf(Eval(Compare(op, Col(t, n), r), BlindEnv()(d)))
  {
    assert Eval(Col(t, n), BlindEnv()(d)) == Ok(Null);
    assert Eval(r, BlindEnv()(d)).Ok? && Eval(r, BlindEnv()(d)).v != Null;
  }

  lemma {:induction false} NoneLeft(p: Document -> bool, s: seq<Document>)
    requires forall d :: d in s ==> !p(d)
    ensures Seqs.Filter(p, s) == []
  {
    if s != [] {
      NoneLeft(p, s[1..]);
    }
  }

  // ----- SELECT DISTINCT of one column -----

  function FieldAt(path: string): Document -> Value {
    (d: Document) => Get(d, path)
  }

  predicate Present(v: Value) {
    v != Missing
  }

  /** The server's distinct values of a field: documents without it do not count. ORDER BY and LIMIT are not passed on. */
  function DistinctDocs(f: FindStmt, coll: seq<Document>): seq<Value>
    requires f.distinct.Some?
  {
    Seqs.Distinct(Seqs.Filter(Present, Seqs.Map(FieldAt(f.distinct.value), Seqs.Filter(M.Matcher(f.filter), coll))))
  }

  /** What the driver returns. */
  function DistinctRows(f: FindStmt, coll: seq<Document>): seq<Value>
    requires f.distinct.Some?
  {
    if f.empty then [] else DistinctDocs(f, coll)
  }

  function ColumnIn(q: string, n: string, read: Document -> Env): Document -> Value {
    (d: Document) => read(d).col(q, n)
  }

  /** SQL's distinct values, as ORDER BY puts them. */
  function DistinctColumn(q: Query, qual: string, n: string, read: Document -> Env, coll: seq<Document>): seq<Value> {
    Seqs.Distinct(Seqs.Map(ColumnIn(qual, n, read), InSqlOrder(q, read, coll)))
  }

  lemma {:induction false} SameElements(a: seq<Value>, b: seq<Value>)
    requires Seqs.NoDup(a) && Seqs.NoDup(b)
    ensures multiset(a) == multiset(b) <==> forall v :: v in a <==> v in b
  {
    forall v
      ensures multiset(a)[v] == (if v in a then 1 else 0) && multiset(b)[v] == (if v in b then 1 else 0)
    {
      Seqs.NoDupCount(a, v);
      Seqs.NoDupCount(b, v);
    }
    if multiset(a) == multiset(b) {
      forall v
        ensures v in a <==> v in b
      {
        assert multiset(a)[v] == multiset(b)[v];
      }
    }
  }

  lemma {:induction false} NullsMapped(vs: seq<Value>, v: Value)
    ensures v in Seqs.Map(NullOf, vs) <==> (v != Missing && v in vs) || (v == Null && Missing in vs)
  {
    var ws := Seqs.Map(NullOf, vs);
    if v in ws {
      var i :| 0 <= i < |vs| && ws[i] == v;
      assert vs[i] in vs;
    }
    if v != Missing && v in vs {
      var i :| 0 <= i < |vs| && vs[i] == v;
      assert ws[i] == v;
    }
    if v == Null && Missing in vs {
      var i :| 0 <= i < |vs| && vs[i] == Missing;
      assert ws[i] == Null;
    }
  }

  function LostNull(vs: seq<Value>): seq<Value> {
    if Missing in vs && Null !in vs then [Null] else []
  }

  lemma {:induction false} FoundAndLost(vs: seq<Value>)
    ensures var a := Seqs.Distinct(Seqs.Filter(Present, vs)) + LostNull(vs);
            Seqs.NoDup(a) && forall v :: v in a <==> (v != Missing && v in vs) || (v == Null && Missing in vs)
  {
    var found, lost := Seqs.Distinct(Seqs.Filter(Present, vs)), LostNull(vs);
    forall v
      ensures v in found + lost <==> v in found || v in lost
      ensures v in found <==> v != Missing && v in vs
    {
    }
  }

  /** Absent values are dropped, where SQL counts them as NULL: that NULL is lost if there is no other. */
  lemma {:induction false} AbsentDropped(vs: seq<Value>)
    ensures multiset(Seqs.Distinct(Seqs.Map(NullOf, vs)))
            == multiset(Seqs.Distinct(Seqs.Filter(Present, vs))) + multiset(LostNull(vs))
  {
    var found := Seqs.Distinct(Seqs.Filter(Present, vs));
    FoundAndLost(vs);
    forall v
      ensures v in found + LostNull(vs) <==> v in Seqs.Distinct(Seqs.Map(NullOf, vs))
    {
      NullsMapped(vs, v);
    }
    SameElements(found + LostNull(vs), Seqs.Distinct(Seqs.Map(NullOf, vs)));
    assert multiset(found + LostNull(vs)) == multiset(found) + multiset(LostNull(vs));
  }

  /** SELECT DISTINCT of one column becomes a distinct command. */
  predicate SelectsDistinct(q: Query, qual: string, n: string) {
    q.distinct && !PlanItemsOf(q.exprs).hasStar && |PlanItemsOf(q.exprs).items| == 1
    && var item := PlanItemsOf(q.exprs).items[0];
       item.FieldItem? && item.qual == qual && item.name == n
  }

  lemma {:induction false} DistinctPath(q: Query, main: Source.SourceRef, qual: string, n: string)
    requires BuildFind(q, main).Success? && SelectsDistinct(q, qual, n)
    ensures BuildFind(q, main).value.distinct == Some(FieldPath(qual, n))
    ensures BuildFind(q, main).value.empty == IsLimitZero(q)
  {
    PathsAre(PlanItemsOf(q.exprs).items);
  }

  /** Some passing row lacks the field, and none holds an explicit NULL. */
  ghost predicate LosesNull(n: string, passing: seq<Document>) {
    (exists d :: d in passing && Get(d, n) == Missing) && !exists d :: d in passing && Get(d, n) == Null
  }

  predicate IsLimitZero(q: Query) {
    q.limit.Some? && q.limit.value.count == Some(0)
  }

  /** LIMIT and OFFSET cut off nothing, or just the NULL that is lost. */
  predicate LimitHarmless(q: Query, values: seq<Value>, lost: bool) {
    IsLimitZero(q)
    || if lost then Cut(OffsetOf(q), LimitOf(q), values) == [Null]
       else (OffsetOf(q) == 0 || values == []) && (LimitOf(q) == 0 || |values| <= OffsetOf(q) + LimitOf(q))
  }

  /** SELECT DISTINCT a, whose NULL may be lost and whose LIMIT is: SQL's values exactly if LIMIT cuts off just what is lost. */
  lemma {:induction false} FindDistinctExactly(q: Query, main: Source.SourceRef, n: string, coll: seq<Document>)
    requires BuildFind(q, main).Success? && SelectsDistinct(q, "", n) && GoodName(n)
    requires forall d :: d in coll ==> RowFits(q, d, TableEnv(main.alias)(d))
    ensures BuildFind(q, main).value.distinct.Some?
    ensures var read := TableEnv(main.alias);
            var passing, values := Seqs.Filter(Passes(q.where_, read), coll), DistinctColumn(q, "", n, read, coll);
            multiset(DistinctRows(BuildFind(q, main).value, coll)) == multiset(SqlLimited(q, values))
            <==> LimitHarmless(q, values, LosesNull(n, passing))
  {
    var read := TableEnv(main.alias);
    DistinctPath(q, main, "", n);
    DistinctFound(q, main, n, coll);
    LimitLoses(q, DistinctColumn(q, "", n, read, coll), DistinctDocs(BuildFind(q, main).value, coll),
               LosesNull(n, Seqs.Filter(Passes(q.where_, read), coll)));
  }

  lemma {:induction false} LimitLoses(q: Query, values: seq<Value>, found: seq<Value>, lost: bool)
    requires multiset(values) == multiset(found) + multiset(if lost then [Null] else [])
    ensures multiset(if IsLimitZero(q) then [] else found) == multiset(SqlLimited(q, values)) <==> LimitHarmless(q, values, lost)
  {
    if !IsLimitZero(q) {
      CutLoses(OffsetOf(q), LimitOf(q), values, found, lost);
    }
  }

  lemma {:induction false} SumsDiffer(a: multiset<Value>, b: multiset<Value>, c: multiset<Value>, d: multiset<Value>)
    requires a + b == c + d
    ensures a == c <==> b == d
  {
    forall v
      ensures a[v] + b[v] == c[v] + d[v]
    {
      assert (a + b)[v] == (c + d)[v];
    }
  }

  lemma {:induction false} AtMostOne(s: seq<Value>, t: seq<Value>)
    requires |t| <= 1
    ensures multiset(s) == multiset(t) <==> s == t
  {
    if multiset(s) == multiset(t) {
      assert |s| == |multiset(s)| == |t|;
      if s != [] {
        assert s[0] in multiset(t);
      }
    }
  }

  lemma {:induction false} CutLoses(skip: nat, limit: nat, values: seq<Value>, found: seq<Value>, lost: bool)
    requires multiset(values) == multiset(found) + multiset(if lost then [Null] else [])
    ensures multiset(found) == multiset(Slice(skip, limit, values))
            <==> if lost then Cut(skip, limit, values) == [Null]
                 else (skip == 0 || values == []) && (limit == 0 || |values| <= skip + limit)
  {
    CutRest(skip, limit, values);
    SumsDiffer(multiset(found), multiset(if lost then [Null] else []),
               multiset(Slice(skip, limit, values)), multiset(Cut(skip, limit, values)));
    AtMostOne(Cut(skip, limit, values), if lost then [Null] else []);
  }

  /** The values found are SQL's, but perhaps for NULL. */
  lemma {:induction false} DistinctFound(q: Query, main: Source.SourceRef, n: string, coll: seq<Document>)
    requires BuildFind(q, main).Success? && BuildFind(q, main).value.distinct == Some(n) && GoodName(n)
    requires forall d :: d in coll ==> RowFits(q, d, TableEnv(main.alias)(d))
    ensures var read := TableEnv(main.alias);
            multiset(DistinctColumn(q, "", n, read, coll))
            == multiset(DistinctDocs(BuildFind(q, main).value, coll))
               + multiset(if LosesNull(n, Seqs.Filter(Passes(q.where_, read), coll)) then [Null] else [])
  {
    var read := TableEnv(main.alias);
    var f, passing := BuildFind(q, main).value, Seqs.Filter(Passes(q.where_, read), coll);
    FindFilters(q, f.filter, read, coll);
    SortHolds(Sooner(q.orderBy, read), passing);
    ColumnValues(main.alias, n, passing);
    DistinctOrderFree(Seqs.Map(ColumnIn("", n, read), InSqlOrder(q, read, coll)), Seqs.Map(ColumnIn("", n, read), passing)) by {
      Seqs.MapMultiset(ColumnIn("", n, read), InSqlOrder(q, read, coll), passing);
    }
    AbsentDropped(Seqs.Map(FieldAt(n), passing));
    ValueHeld(n, passing, Missing);
    ValueHeld(n, passing, Null);
  }

  lemma {:induction false} ColumnValues(main: string, n: string, docs: seq<Document>)
    requires GoodName(n)
    ensures Seqs.Map(NullOf, Seqs.Map(FieldAt(n), docs)) == Seqs.Map(ColumnIn("", n, TableEnv(main)), docs)
  {
    forall d | d in docs
      ensures ColumnIn("", n, TableEnv(main))(d) == NullOf(FieldAt(n)(d))
    {
      GetName(d, n);
    }
    Seqs.MapMap(NullOf, FieldAt(n), ColumnIn("", n, TableEnv(main)), docs);
  }

  lemma {:induction false} DistinctOrderFree(a: seq<Value>, b: seq<Value>)
    requires multiset(a) == multiset(b)
    ensures multiset(Seqs.Distinct(a)) == multiset(Seqs.Distinct(b))
  {
    forall v
      ensures v in a <==> v in b
    {
      assert v in a <==> v in multiset(a);
    }
    SameElements(Seqs.Distinct(a), Seqs.Distinct(b));
  }

  /** SELECT DISTINCT t.a finds no value at all: right exactly if SQL has no row. */
  lemma {:induction false} QualifiedDistinctExactly(q: Query, main: Source.SourceRef, n: string, coll: seq<Document>)
    requires BuildFind(q, main).Success? && SelectsDistinct(q, main.alias, n) && GoodName(n) && GoodName(main.alias)
    requires RecordsOnly(main.alias, coll) && forall d :: d in coll ==> RowFits(q, d, TableEnv(main.alias)(d))
    ensures BuildFind(q, main).value.distinct.Some?
    ensures var read := TableEnv(main.alias);
            var passing, values := Seqs.Filter(Passes(q.where_, read), coll), DistinctColumn(q, main.alias, n, read, coll);
            DistinctRows(BuildFind(q, main).value, coll) == []
            && ([] == SqlLimited(q, values)
                <==> IsLimitZero(q) || passing == [] || OffsetOf(q) >= |values|)
  {
    var read := TableEnv(main.alias);
    DistinctPath(q, main, main.alias, n);
    QualifiedFindsNoValue(q, main, n, coll);
    NonEmptyDistinct(q, main.alias, n, read, coll);
    LimitedEmpty(q, DistinctColumn(q, main.alias, n, read, coll));
  }

  lemma {:induction false} LimitedEmpty(q: Query, s: seq<Value>)
    ensures SqlLimited(q, s) == [] <==> IsLimitZero(q) || OffsetOf(q) >= |s|
  {
  }

  lemma {:induction false} QualifiedFindsNoValue(q: Query, main: Source.SourceRef, n: string, coll: seq<Document>)
    requires BuildFind(q, main).Success? && BuildFind(q, main).value.distinct == Some(FieldPath(main.alias, n))
    requires GoodName(n) && GoodName(main.alias)
    requires RecordsOnly(main.alias, coll) && forall d :: d in coll ==> RowFits(q, d, TableEnv(main.alias)(d))
    ensures DistinctDocs(BuildFind(q, main).value, coll) == []
  {
    var f, passing := BuildFind(q, main).value, Seqs.Filter(Passes(q.where_, TableEnv(main.alias)), coll);
    FindFilters(q, f.filter, TableEnv(main.alias), coll);
    forall d | d in passing
      ensures FieldAt(FieldPath(main.alias, n))(d) == Missing
    {
      GetQualified(d, main.alias, n);
    }
    AllMissing(FieldPath(main.alias, n), passing);
  }

  lemma {:induction false} AllMissing(path: string, docs: seq<Document>)
    requires forall d :: d in docs ==> FieldAt(path)(d) == Missing
    ensures Seqs.Filter(Present, Seqs.Map(FieldAt(path), docs)) == []
  {
    var vs := Seqs.Map(FieldAt(path), docs);
    forall v | v in vs
      ensures !Present(v)
    {
      var i :| 0 <= i < |vs| && vs[i] == v;
      assert docs[i] in docs;
    }
    if Seqs.Filter(Present, vs) != [] {
      assert Seqs.Filter(Present, vs)[0] in Seqs.Filter(Present, vs);
    }
  }

  lemma {:induction false} NonEmptyDistinct(q: Query, qual: string, n: string, read: Document -> Env, coll: seq<Document>)
    ensures DistinctColumn(q, qual, n, read, coll) == [] <==> Seqs.Filter(Passes(q.where_, read), coll) == []
  {
    var vs := Seqs.Map(ColumnIn(qual, n, read), InSqlOrder(q, read, coll));
    assert |vs| == |InSqlOrder(q, read, coll)| == |Seqs.Filter(Passes(q.where_, read), coll)|;
    if vs != [] {
      assert vs[0] in Seqs.Distinct(vs);
    }
  }

  lemma {:induction false} ValueHeld(n: string, docs: seq<Document>, v: Value)
    ensures v in Seqs.Map(FieldAt(n), docs) <==> exists d :: d in docs && Get(d, n) == v
  {
    var vs := Seqs.Map(FieldAt(n), docs);
    if v in vs {
      var i :| 0 <= i < |vs| && vs[i] == v;
      assert docs[i] in docs && Get(docs[i], n) == v;
    }
    if exists d :: d in docs && Get(d, n) == v {
      var d :| d in docs && Get(d, n) == v;
      var i :| 0 <= i < |docs| && docs[i] == d;
      assert vs[i] == v;
    }
  }
}
