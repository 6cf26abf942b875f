/** What a grouped SELECT returns, said of the statement as parsed. */
module GroupedResults {
  import opened Wrappers
  import opened Bson
  import opened Sql
  import opened JoinTheorem
  import opened Select
  import opened GroupTheorem
  import opened GroupedQuery
  import opened QueryTheorem
  import opened RenderTheorem
  import opened Listing
  import HavingTheorem
  import Aggregates
  import WhereTheorem
  import Ordering
  import Stages
  import AnyOrder
  import Render
  import M = Mongo
  import Seqs

  // ----- SQL's result -----

  function ValueOrNull(r: Outcome): Value {
    if r.Ok? then r.v else Null
  }

  /** A group gives the columns of any of its rows, and aggregates over all of them. */
  ghost function GroupEnv(g: GroupOf, main: string): Env {
    Env((q: string, n: string) => GroupColumn(g, q, n, main), (a: AggSpec) => Aggregates.SqlAgg(a, g.members, main))
  }

  ghost function ResultValue(x: SelectExpr, g: GroupOf, main: string): Value
    requires x.Aliased?
  {
    ValueOrNull(Eval(x.e, GroupEnv(g, main)))
  }

  ghost function ResultValues(xs: seq<SelectExpr>, g: GroupOf, main: string): (vs: seq<Value>)
    requires forall x :: x in xs ==> x.Aliased?
    ensures |vs| == |xs| && forall i :: 0 <= i < |xs| ==> vs[i] == ResultValue(xs[i], g, main)
  {
    if xs == [] then [] else [ResultValue(xs[0], g, main)] + ResultValues(xs[1..], g, main)
  }

  /** The values of the listed expressions for a group. */
  ghost function ResultRow(exprs: seq<SelectExpr>, main: string): GroupOf -> seq<Value> {
    (g: GroupOf) => ResultValues(Listed(exprs), g, main)
  }

  /** The first listed expression whose column has this name. */
  function ColumnCalled(n: string, xs: seq<SelectExpr>, main: string): (x: Option<SelectExpr>)
    requires forall x :: x in xs ==> x.Aliased?
    ensures x.Some? ==> x.value in xs && ResultName(x.value, main) == n
    ensures x.None? ==> forall y :: y in xs ==> ResultName(y, main) != n
  {
    if xs == [] then None
    else if ResultName(xs[0], main) == n then Some(xs[0])
    else ColumnCalled(n, xs[1..], main)
  }

  /** The first one that is this expression, under an alias. */
  function AliasedAs(e: Expr, xs: seq<SelectExpr>): (x: Option<SelectExpr>)
    requires forall x :: x in xs ==> x.Aliased?
    ensures x.Some? ==> x.value in xs && x.value.e == e
  {
    if xs == [] then None
    else if xs[0].alias != "" && xs[0].e == e then Some(xs[0])
    else AliasedAs(e, xs[1..])
  }

  /** ORDER BY names a column of the result, or repeats a listed expression. */
  function OrderedExpr(e: Expr, exprs: seq<SelectExpr>, main: string): (x: Option<SelectExpr>)
    ensures x.Some? ==> x.value in Listed(exprs)
  {
    if !e.Col? then AliasedAs(e, Listed(exprs))
    else if e.qual in {"", main} then ColumnCalled(e.name, Listed(exprs), main)
    else None
  }

  ghost function ResultOrder(q: Query, main: string): GroupOf -> Value {
    (g: GroupOf) =>
      if q.orderBy != [] && OrderedExpr(q.orderBy[0].e, q.exprs, main).Some?
      then ResultValue(OrderedExpr(q.orderBy[0].e, q.exprs, main).value, g, main)
      else Null
  }

  /** A grouping column of this name. */
  function GroupingColumn(n: string, groupBy: seq<Expr>): (e: Option<Expr>)
    ensures e.Some? ==> e.value in groupBy && e.value.Col? && e.value.name == n
    ensures e.None? ==> forall c :: c in groupBy && c.Col? ==> c.name != n
  {
    if groupBy == [] then None
    else if groupBy[0].Col? && groupBy[0].name == n then Some(groupBy[0])
    else GroupingColumn(n, groupBy[1..])
  }

  /** HAVING sees the columns of the result, the grouping columns, the columns of the tables, and the aggregates. */
  ghost function ResultEnv(exprs: seq<SelectExpr>, groupBy: seq<Expr>, g: GroupOf, main: string): Env {
    Env((q: string, n: string) =>
          if q != "" then GroupColumn(g, q, n, main)
          else if ColumnCalled(n, Listed(exprs), main).Some? then ResultValue(ColumnCalled(n, Listed(exprs), main).value, g, main)
          else if GroupingColumn(n, groupBy).Some? then GroupColumn(g, GroupingColumn(n, groupBy).value.qual, n, main)
          else Null,
        (a: AggSpec) => Aggregates.SqlAgg(a, g.members, main))
  }

  ghost function ResultHolds(q: Query, groupBy: seq<Expr>, main: string): GroupOf -> bool {
    (g: GroupOf) => q.having.None? || WhereTheorem.IsTrueOf(Eval(q.having.value, ResultEnv(q.exprs, groupBy, g, main)))
  }

  /** The groups of the joined rows that pass WHERE, as HAVING leaves them. */
  ghost function ResultGroups(q: Query, groupBy: seq<Expr>, db: M.Database): seq<GroupOf>
    requires AllCols(groupBy)
  {
    Seqs.Filter(ResultHolds(q, groupBy, MainAlias(q.from)), GroupsOf(groupBy, PassingRows(q, db), MainAlias(q.from)))
  }

  /** The result: filtered, ordered and limited, as values of the listed expressions. */
  ghost function GroupedRows(q: Query, groupBy: seq<Expr>, db: M.Database): seq<seq<Value>>
    requires AllCols(groupBy)
  {
    var main := MainAlias(q.from);
    Seqs.Map(ResultRow(q.exprs, main), SqlLimited(q, SqlOrder(q.orderBy, ResultOrder(q, main), ResultGroups(q, groupBy, db))))
  }

  // ----- items and listed expressions -----

  lemma {:induction false} ItemIsListed(item: SelectItem, x: SelectExpr, g: GroupOf, main: string)
    requires StandsFor(item, x) && !item.ExprItem?
    ensures SelectValue(item, g, main) == ResultValue(x, g, main)
  {
    if x.e.Col? {
      assert Eval(x.e, GroupEnv(g, main)) == Ok(GroupColumn(g, x.e.qual, x.e.name, main));
    } else {
      assert Eval(x.e, GroupEnv(g, main)) == Ok(Aggregates.SqlAgg(x.e.spec, g.members, main));
    }
  }

  lemma {:induction false} RowIsListed(items: seq<SelectItem>, exprs: seq<SelectExpr>, g: GroupOf, main: string)
    requires AllStandFor(items, Listed(exprs)) && forall item :: item in items ==> !item.ExprItem?
    ensures SelectRow(items, main)(g) == ResultRow(exprs, main)(g)
  {
    var a, b := SelectRow(items, main)(g), ResultRow(exprs, main)(g);
    forall i | 0 <= i < |items|
      ensures a[i] == b[i]
    {
      assert items[i] in items;
      ItemIsListed(items[i], Listed(exprs)[i], g, main);
    }
    assert |a| == |items| == |b|;
  }

  lemma {:induction false} ShownIsObserved(items: seq<SelectItem>, exprs: seq<SelectExpr>, d: Document, main: string)
    requires AllStandFor(items, Listed(exprs)) && forall item :: item in items && item.FieldItem? ==> item.alias == ""
    ensures Observed(items, main)(d) == ShownAs(ResultNames(exprs, main))(d)
  {
    var a, b := Observed(items, main)(d), ShownAs(ResultNames(exprs, main))(d);
    forall i | 0 <= i < |items|
      ensures a[i] == b[i]
    {
      assert items[i] in items;
      NameIsResult(items[i], Listed(exprs)[i], main);
    }
    assert |a| == |items| == |b|;
  }

  lemma {:induction false} ItemCalled(n: string, e: Expr, items: seq<SelectItem>, xs: seq<SelectExpr>, main: string)
    requires AllStandFor(items, xs) && e.Col? && e.name == n && e.qual in {"", main}
    requires forall item :: item in items && item.FieldItem? ==> item.alias == ""
    ensures ItemOrdered(e, items, main).Some? <==> ColumnCalled(n, xs, main).Some?
    ensures ItemOrdered(e, items, main).Some? ==> StandsFor(ItemOrdered(e, items, main).value, ColumnCalled(n, xs, main).value)
  {
    if items != [] {
      assert items[0] in items;
      NameIsResult(items[0], xs[0], main);
      if !OrdersBy(e, items[0], main) {
        assert AllStandFor(items[1..], xs[1..]);
        ItemCalled(n, e, items[1..], xs[1..], main);
      }
    }
  }

  lemma {:induction false} ItemAliased(e: Expr, items: seq<SelectItem>, xs: seq<SelectExpr>, main: string)
    requires AllStandFor(items, xs) && !e.Col?
    ensures ItemOrdered(e, items, main).Some? <==> AliasedAs(e, xs).Some?
    ensures ItemOrdered(e, items, main).Some? ==> StandsFor(ItemOrdered(e, items, main).value, AliasedAs(e, xs).value)
  {
    if items != [] {
      ItemIsExpr(items[0], xs[0]);
      if !OrdersBy(e, items[0], main) {
        assert AllStandFor(items[1..], xs[1..]);
        ItemAliased(e, items[1..], xs[1..], main);
      }
    }
  }

  lemma {:induction false} ItemIsExpr(item: SelectItem, x: SelectExpr)
    requires StandsFor(item, x)
    ensures Render.RawExpr(item) == x.e
  {
  }

  // ----- the plan's groups and order are SQL's -----

  /** What the plan of a grouping query gives: its items, output fields and state. */
  ghost predicate Planned(groupBy: seq<Expr>, items: seq<SelectItem>, outputs: map<string, AggSpec>, xs: seq<SelectExpr>, main: string)
    requires AllCols(groupBy)
  {
    AllStandFor(items, xs) && GoodGrouping(groupBy, items, main) && SelectedState(items, main).Success?
    && outputs == SelectedState(items, main).value.outputs && GoodOutputs(groupBy, outputs, main)
  }

  lemma {:induction false} QueryPlanned(q: Query, groupBy: seq<Expr>, db: M.Database)
    requires Groups(q, groupBy) && QueryFits(q, PlanItemsOf(q.exprs).items, groupBy, db)
    ensures var items, main := PlanItemsOf(q.exprs).items, MainAlias(q.from);
            Planned(groupBy, items, SelectedState(items, main).value.outputs, Listed(q.exprs), main)
            && (forall item :: item in items ==> (item.FieldItem? ==> item.alias == "") && !item.ExprItem?)
  {
    var items, main := PlanItemsOf(q.exprs).items, MainAlias(q.from);
    PlansListed(q.exprs);
    GroupsPlanned(q, groupBy);
    PlannedOutputs(groupBy, items, PlanHaving(q.having, SelectedState(items, main).value, main).value, q.having, main);
    GroupedItems(groupBy, items, main);
  }

  /** A name that no item has is no output field. */
  lemma {:induction false} NoOutput(groupBy: seq<Expr>, items: seq<SelectItem>, outputs: map<string, AggSpec>, xs: seq<SelectExpr>, n: string,
                                    main: string)
    requires AllCols(groupBy) && Planned(groupBy, items, outputs, xs, main) && ColumnCalled(n, xs, main).None?
    requires forall item :: item in items && item.FieldItem? ==> item.alias == ""
    ensures n !in outputs
  {
    HavingTheorem.SelectedConsistent(items, main);
    if n in outputs {
      assert HavingTheorem.InList(items, outputs[n], n, main);
      var i :| 0 <= i < |items| && items[i].AggItem? && HavingTheorem.NameOf(items[i], main) == n;
      assert xs[i] in xs && items[i] in items;
      NameIsResult(items[i], xs[i], main);
    }
  }

  /** A field of an output row, by name, is what SQL's HAVING sees under the name. */
  lemma {:induction false} OutputIsColumn(groupBy: seq<Expr>, items: seq<SelectItem>, outputs: map<string, AggSpec>, exprs: seq<SelectExpr>,
                                          g: GroupOf, n: string, main: string)
    requires AllCols(groupBy) && Planned(groupBy, items, outputs, Listed(exprs), main) && Keyed(groupBy, g, main) && GoodName(n)
    requires forall item :: item in items ==> (item.FieldItem? ==> item.alias == "") && !item.ExprItem?
    ensures NullOf(Get(OutRow(groupBy, outputs, g, main), n)) == ResultEnv(exprs, groupBy, g, main).col("", n)
  {
    var xs := Listed(exprs);
    if ColumnCalled(n, xs, main).Some? {
      var x := ColumnCalled(n, xs, main).value;
      var i :| 0 <= i < |xs| && xs[i] == x;
      assert items[i] in items;
      NameIsResult(items[i], x, main);
      ItemObserved(groupBy, items, items[i], g, main);
      ItemIsListed(items[i], x, g, main);
    } else {
      NoOutput(groupBy, items, outputs, xs, n, main);
      NamedByKey(groupBy, outputs, g, n, main);
    }
  }

  lemma {:induction false} NamedByKey(groupBy: seq<Expr>, outputs: map<string, AggSpec>, g: GroupOf, n: string, main: string)
    requires AllCols(groupBy) && GoodOutputs(groupBy, outputs, main) && Keyed(groupBy, g, main) && GoodName(n) && n !in outputs
    ensures NullOf(Get(OutRow(groupBy, outputs, g, main), n))
            == if GroupingColumn(n, groupBy).Some? then GroupColumn(g, GroupingColumn(n, groupBy).value.qual, n, main) else Null
  {
    if GroupingColumn(n, groupBy).Some? {
      var e := GroupingColumn(n, groupBy).value;
      var i :| 0 <= i < |groupBy| && groupBy[i] == e;
      assert SameSource(e.qual, groupBy[i].qual, main);
      FieldObserved(FieldItem(e.qual, n, ""), groupBy, outputs, g, main);
    } else {
      KeyDocNames(groupBy, g.key);
      assert forall i :: 0 <= i < |groupBy| ==> groupBy[i] in groupBy;
      GetName(OutRow(groupBy, outputs, g, main), n);
    }
  }

  lemma {:induction false} HavingIsResult(q: Query, groupBy: seq<Expr>, g: GroupOf, db: M.Database)
    requires Groups(q, groupBy) && QueryFits(q, PlanItemsOf(q.exprs).items, groupBy, db)
    requires g in GroupsOf(groupBy, PassingRows(q, db), MainAlias(q.from))
    ensures var outputs, main := SelectedState(PlanItemsOf(q.exprs).items, MainAlias(q.from)).value.outputs, MainAlias(q.from);
            HavingHolds(q.having, groupBy, outputs, main)(g) == ResultHolds(q, groupBy, main)(g)
  {
    if q.having.Some? {
      var items, main := PlanItemsOf(q.exprs).items, MainAlias(q.from);
      var st := SelectedState(items, main).value;
      QueryPlanned(q, groupBy, db);
      GroupsPlanned(q, groupBy);
      PlannedOutputs(groupBy, items, PlanHaving(q.having, st, main).value, q.having, main);
      HavingTheorem.SelectedConsistent(items, main);
      GroupsKeyed(groupBy, PassingRows(q, db), main);
      HavingSame(q.having.value, q.exprs, groupBy, items, st, g, main);
    }
  }

  lemma {:induction false} HavingSame(having: Expr, exprs: seq<SelectExpr>, groupBy: seq<Expr>, items: seq<SelectItem>, st: GroupState, g: GroupOf,
                                      main: string)
    requires AllCols(groupBy) && Planned(groupBy, items, st.outputs, Listed(exprs), main) && Keyed(groupBy, g, main)
    requires forall item :: item in items ==> (item.FieldItem? ==> item.alias == "") && !item.ExprItem?
    requires HavingTheorem.Consistent(st) && st.hidden == [] && RewriteHaving(having, st, main).Success?
    requires GoodOutputs(groupBy, RewriteHaving(having, st, main).value.st.outputs, main)
    requires HavingFits(having, groupBy, st, g, main) && NamesOutputs(Some(having))
    ensures Eval(having, HavingEnv(groupBy, st.outputs, g, main)) == Eval(having, ResultEnv(exprs, groupBy, g, main))
  {
    var r := RewriteHaving(having, st, main).value;
    HavingColumns(having, groupBy, st, r, g, main);
    forall c | c in Cols(having)
      ensures ResultEnv(exprs, groupBy, g, main).col(c.0, c.1) == ReadEnv(groupBy, st.outputs, g, main).col(c.0, c.1)
    {
      OutputIsColumn(groupBy, items, st.outputs, exprs, g, c.1, main);
    }
    HavingMeans(having, groupBy, st, r, g, HavingEnv(groupBy, st.outputs, g, main), main);
    HavingMeans(having, groupBy, st, r, g, ResultEnv(exprs, groupBy, g, main), main);
  }

  lemma {:induction false} GroupsAreResult(q: Query, groupBy: seq<Expr>, db: M.Database)
    requires Groups(q, groupBy) && QueryFits(q, PlanItemsOf(q.exprs).items, groupBy, db)
    ensures SqlGroups(q, groupBy, db) == ResultGroups(q, groupBy, db)
  {
    var outputs, main := SelectedState(PlanItemsOf(q.exprs).items, MainAlias(q.from)).value.outputs, MainAlias(q.from);
    var gs := GroupsOf(groupBy, PassingRows(q, db), main);
    forall g | g in gs
      ensures HavingHolds(q.having, groupBy, outputs, main)(g) == ResultHolds(q, groupBy, main)(g)
    {
      HavingIsResult(q, groupBy, g, db);
    }
    Seqs.FilterCong(HavingHolds(q.having, groupBy, outputs, main), ResultHolds(q, groupBy, main), gs);
  }

  /** ORDER BY names a column of the result, as the plan understands it. */
  predicate OrdersByColumnOf(q: Query, main: string) {
    |q.orderBy| <= 1 && forall o :: o in q.orderBy ==> OrderedExpr(o.e, q.exprs, main).Some?
  }

  lemma {:induction false} OrderIsResult(q: Query, items: seq<SelectItem>, g: GroupOf, main: string)
    requires items == PlanItemsOf(q.exprs).items && AllStandFor(items, Listed(q.exprs)) && OrdersByColumnOf(q, main)
    requires forall item :: item in items ==> (item.FieldItem? ==> item.alias == "") && !item.ExprItem?
    ensures OrdersByItem(q, main) && GroupOrder(q, main)(g) == ResultOrder(q, main)(g)
  {
    forall o | o in q.orderBy
      ensures ItemOrdered(o.e, items, main).Some?
      ensures StandsFor(ItemOrdered(o.e, items, main).value, OrderedExpr(o.e, q.exprs, main).value)
    {
      if o.e.Col? {
        ItemCalled(o.e.name, o.e, items, Listed(q.exprs), main);
      } else {
        ItemAliased(o.e, items, Listed(q.exprs), main);
      }
    }
    if q.orderBy != [] {
      var o := q.orderBy[0];
      assert o in q.orderBy;
      ItemIsListed(ItemOrdered(o.e, items, main).value, OrderedExpr(o.e, q.exprs, main).value, g, main);
    }
  }

  lemma {:induction false} OrderCong<A(!new)>(orders: seq<Order>, v: A -> Value, w: A -> Value, s: seq<A>)
    requires forall x :: x in s ==> v(x) == w(x)
    ensures SqlOrder(orders, v, s) == SqlOrder(orders, w, s)
  {
    if orders != [] {
      Ordering.SortCong(ByValue(v, orders[0].descending), ByValue(w, orders[0].descending), s);
    }
  }

  // ----- the result -----

  /** A row shows the result's columns as SQL has them. */
  lemma {:induction false} RowsAreListed(items: seq<SelectItem>, exprs: seq<SelectExpr>, docs: seq<Document>, gs: seq<GroupOf>, main: string)
    requires AllStandFor(items, Listed(exprs))
    requires forall item :: item in items ==> (item.FieldItem? ==> item.alias == "") && !item.ExprItem?
    ensures Seqs.Map(Observed(items, main), docs) == Seqs.Map(ShownAs(ResultNames(exprs, main)), docs)
    ensures Seqs.Map(SelectRow(items, main), gs) == Seqs.Map(ResultRow(exprs, main), gs)
  {
    forall d | d in docs
      ensures Observed(items, main)(d) == ShownAs(ResultNames(exprs, main))(d)
    {
      ShownIsObserved(items, exprs, d, main);
    }
    Seqs.MapCong(Observed(items, main), ShownAs(ResultNames(exprs, main)), docs);
    forall g | g in gs
      ensures SelectRow(items, main)(g) == ResultRow(exprs, main)(g)
    {
      RowIsListed(items, exprs, g, main);
    }
    Seqs.MapCong(SelectRow(items, main), ResultRow(exprs, main), gs);
  }

  /** A grouped statement shows, under the names of the result's columns, SQL's rows: the values of the listed expressions, ordered and limited. */
  lemma {:induction false} GroupedResult(q: Query, groupBy: seq<Expr>, print_: Expr -> string, db: M.Database)
    requires Groups(q, groupBy) && QueryFits(q, PlanItemsOf(q.exprs).items, groupBy, db)
    requires Render.BuildAggregate(q, print_).Success? && OrdersByColumnOf(q, MainAlias(q.from))
    ensures Seqs.Map(ShownAs(ResultNames(q.exprs, MainAlias(q.from))), Render.StatementDocs(Render.BuildAggregate(q, print_).value, db))
            == GroupedRows(q, groupBy, db)
  {
    var items, main, gs := PlanItemsOf(q.exprs).items, MainAlias(q.from), SqlGroups(q, groupBy, db);
    QueryPlanned(q, groupBy, db);
    GroupsAreResult(q, groupBy, db);
    forall g: GroupOf
      ensures OrdersByItem(q, main) && GroupOrder(q, main)(g) == ResultOrder(q, main)(g)
    {
      OrderIsResult(q, items, g, main);
    }
    OrderIsResult(q, items, GroupOf([], []), main);
    OrderCong(q.orderBy, GroupOrder(q, main), ResultOrder(q, main), gs);
    GroupedStatementCorrect(q, groupBy, print_, db);
    RowsAreListed(items, q.exprs, Render.StatementDocs(Render.BuildAggregate(q, print_).value, db),
                  SqlLimited(q, SqlOrder(q.orderBy, GroupOrder(q, main), gs)), main);
  }

  // ----- what else comes out -----

  /** A row has a field for each grouping column, selected or not, and for each listed aggregate, and no other. */
  lemma {:induction false} GroupedFields(q: Query, groupBy: seq<Expr>, print_: Expr -> string, db: M.Database, d: Document, n: string)
    requires Groups(q, groupBy) && QueryFits(q, PlanItemsOf(q.exprs).items, groupBy, db)
    requires Render.BuildAggregate(q, print_).Success? && OrdersByColumnOf(q, MainAlias(q.from)) && !(q.limit.Some? && q.limit.value.count == Some(0))
    requires d in Render.StatementDocs(Render.BuildAggregate(q, print_).value, db)
    ensures n in d <==> (exists e :: e in groupBy && e.Col? && e.name == n)
                        || exists x :: x in Listed(q.exprs) && x.e.Agg? && ResultName(x, MainAlias(q.from)) == n
  {
    var items, main, gs := PlanItemsOf(q.exprs).items, MainAlias(q.from), SqlGroups(q, groupBy, db);
    var outputs := SelectedState(items, main).value.outputs;
    QueryPlanned(q, groupBy, db);
    OrderIsResult(q, items, GroupOf([], []), main);
    GroupedStatementDocs(q, groupBy, print_, db);
    OrderedIn(q, GroupOrder(q, main), gs);
    GroupsKeyed(groupBy, PassingRows(q, db), main);
    var g := Preimage(OutRows(groupBy, outputs, main),
                      Ordering.Slice(Render.OffsetOf(q), Render.LimitOf(q), SqlOrder(q.orderBy, GroupOrder(q, main), gs)), d);
    OutputFields(groupBy, items, outputs, Listed(q.exprs), g, n, main);
  }

  ghost function Preimage(f: GroupOf -> Document, s: seq<GroupOf>, d: Document): (g: GroupOf)
    requires d in Seqs.Map(f, s)
    ensures g in s && f(g) == d
  {
    var i :| 0 <= i < |s| && Seqs.Map(f, s)[i] == d;
    s[i]
  }

  lemma {:induction false} OutputFields(groupBy: seq<Expr>, items: seq<SelectItem>, outputs: map<string, AggSpec>, xs: seq<SelectExpr>, g: GroupOf,
                                        n: string, main: string)
    requires AllCols(groupBy) && Planned(groupBy, items, outputs, xs, main) && Keyed(groupBy, g, main)
    requires forall x :: x in xs ==> x.Aliased?
    requires forall item :: item in items ==> (item.FieldItem? ==> item.alias == "") && !item.ExprItem?
    ensures n in OutRow(groupBy, outputs, g, main)
            <==> (exists e :: e in groupBy && e.Col? && e.name == n) || exists x :: x in xs && x.e.Agg? && ResultName(x, main) == n
  {
    KeyDocNames(groupBy, g.key);
    KeyNames(groupBy, n);
    HavingTheorem.SelectedConsistent(items, main);
    if n in outputs {
      assert HavingTheorem.InList(items, outputs[n], n, main);
      var i :| 0 <= i < |items| && items[i].AggItem? && HavingTheorem.NameOf(items[i], main) == n;
      NameIsResult(items[i], xs[i], main);
      assert xs[i] in xs;
    }
    if exists x :: x in xs && x.e.Agg? && ResultName(x, main) == n {
      var x :| x in xs && x.e.Agg? && ResultName(x, main) == n;
      var i :| 0 <= i < |xs| && xs[i] == x;
      NameIsResult(items[i], x, main);
    }
  }

  lemma {:induction false} KeyNames(groupBy: seq<Expr>, n: string)
    requires AllCols(groupBy)
    ensures HasName(groupBy, n) <==> exists e :: e in groupBy && e.Col? && e.name == n
  {
    if exists e :: e in groupBy && e.Col? && e.name == n {
      var e :| e in groupBy && e.Col? && e.name == n;
      var i :| 0 <= i < |groupBy| && groupBy[i] == e;
    }
    if HasName(groupBy, n) {
      var i :| 0 <= i < |groupBy| && groupBy[i].name == n;
      assert groupBy[i] in groupBy;
    }
  }

  /** In whatever order $group emits its groups, without LIMIT the result is a sorted permutation of SQL's. */
  lemma {:induction false} AnyOrderResult(q: Query, groupBy: seq<Expr>, h: HavingPlan, keys: seq<M.SortKey>, db: M.Database, grouped: seq<Document>)
    requires Groups(q, groupBy) && QueryFits(q, PlanItemsOf(q.exprs).items, groupBy, db)
    requires PlanHaving(q.having, SelectedState(PlanItemsOf(q.exprs).items, MainAlias(q.from)).value, MainAlias(q.from)) == Success(h)
    requires AllAccumulate(h.st.outputs, MainAlias(q.from)) && HavingStages(h).Success?
    requires OrdersByColumnOf(q, MainAlias(q.from))
    requires Render.OrderKeys(q.orderBy, PlanItemsOf(q.exprs).items, MainAlias(q.from)) == Success(keys)
    requires multiset(grouped)
             == multiset(M.Run(GroupingStages(groupBy, h.st, MainAlias(q.from)), Seqs.Map(AsJoined(MainAlias(q.from)), PassingRows(q, db)), db))
    ensures var out := M.Run(HavingStages(h).value + Stages.Tail(keys, 0, 0), grouped, db);
            multiset(Seqs.Map(ShownAs(ResultNames(q.exprs, MainAlias(q.from))), out))
            == multiset(Seqs.Map(ResultRow(q.exprs, MainAlias(q.from)), ResultGroups(q, groupBy, db)))
            && Ordering.Sorted(M.Comes(keys), out)
  {
    var items, main := PlanItemsOf(q.exprs).items, MainAlias(q.from);
    QueryPlanned(q, groupBy, db);
    GroupsAreResult(q, groupBy, db);
    OrderIsResult(q, items, GroupOf([], []), main);
    AnyOrder.SortedAnyOrder(q, groupBy, h, keys, db, grouped);
    RowsAreListed(items, q.exprs, M.Run(HavingStages(h).value + Stages.Tail(keys, 0, 0), grouped, db), SqlGroups(q, groupBy, db), main);
  }
}
