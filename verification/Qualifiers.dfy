/** Columns named with their table in HAVING or ORDER BY of a grouped statement, where only output fields are left. */
module Qualifiers {
  import opened Wrappers
  import opened Bson
  import opened Sql
  import Compiler
  import opened WhereTheorem
  import opened JoinTheorem
  import opened Select
  import opened HavingTheorem
  import opened Aggregates
  import opened GroupTheorem
  import opened GroupedQuery
  import opened QueryTheorem
  import opened Ordering
  import Stages
  import opened Render
  import opened RenderTheorem
  import M = Mongo
  import W = Where
  import AnyOrder
  import Seqs

  // ----- output rows -----

  lemma {:induction false} OutRowScalar(groupBy: seq<Expr>, outputs: map<string, AggSpec>, g: GroupOf, main: string, n: string)
    requires AllCols(groupBy) && DistinctCols(groupBy) && Keyed(groupBy, g, main)
    requires forall row :: row in g.members ==> KeyPresent(groupBy, row, main)
    requires n in OutRow(groupBy, outputs, g, main)
    ensures IsScalar(OutRow(groupBy, outputs, g, main)[n])
  {
    if n in outputs {
      AnyOrder.AggScalar(outputs[n], g.members, main);
    } else {
      KeyDocNames(groupBy, g.key);
      var i :| 0 <= i < |groupBy| && groupBy[i].name == n;
      KeyDocAt(groupBy, g.key, i);
      assert g.members[0] in g.members;
      KeyScalar(groupBy, g.members[0], main, i);
    }
  }

  lemma {:induction false} KeyScalar(groupBy: seq<Expr>, row: Row, main: string, i: nat)
    requires AllCols(groupBy) && KeyPresent(groupBy, row, main) && i < |groupBy|
    ensures IsScalar(KeyOfRow(groupBy, row, main)[i])
  {
    var n := |groupBy| - 1;
    assert ColumnPresent(groupBy[n], row, main);
    if i < n {
      assert forall j :: 0 <= j < n ==> groupBy[..n][j] == groupBy[j];
      KeyScalar(groupBy[..n], row, main, i);
    }
  }

  /** The emitted filter reads NULL for every column named with its table. */
  lemma {:induction false} QualifiedHavingReadsNull(groupBy: seq<Expr>, outputs: map<string, AggSpec>, g: GroupOf, main: string, q: string, n: string)
    requires AllCols(groupBy) && DistinctCols(groupBy) && Keyed(groupBy, g, main)
    requires forall row :: row in g.members ==> KeyPresent(groupBy, row, main)
    requires GoodName(q) && GoodName(n)
    ensures ReadEnv(groupBy, outputs, g, main).col(q, n) == Null
  {
    var d := OutRow(groupBy, outputs, g, main);
    GetQualified(d, q, n);
    if q in d {
      OutRowScalar(groupBy, outputs, g, main, q);
    }
  }

  /** So HAVING t.a = v, or any comparison with a value, keeps no group. */
  lemma {:induction false} QualifiedHavingKeepsNone(op: CmpOp, r: Expr, groupBy: seq<Expr>, outputs: map<string, AggSpec>, g: GroupOf, main: string,
                                                    q: string, n: string)
    requires AllCols(groupBy) && DistinctCols(groupBy) && Keyed(groupBy, g, main)
    requires forall row :: row in g.members ==> KeyPresent(groupBy, row, main)
    requires GoodName(q) && GoodName(n) && W.ExprOp(op).Some? && W.IsConstant(r) && !r.NullLit?
    ensures !ReadHolds(Some(Compare(op, Col(q, n), r)), groupBy, outputs, main)(g)
  {
    var env := ReadEnv(groupBy, outputs, g, main);
    QualifiedHavingReadsNull(groupBy, outputs, g, main, q, n);
    assert Eval(Col(q, n), env) == Ok(Null);
    assert Eval(Compare(op, Col(q, n), r), env) == Comparison(op, Ok(Null), Eval(r, env));
  }

  /** Output rows tell groups apart. */
  lemma {:induction false} OutRowsInjective(groupBy: seq<Expr>, outputs: map<string, AggSpec>, rows: seq<Row>, main: string, g: GroupOf, h: GroupOf)
    requires AllCols(groupBy) && DistinctCols(groupBy) && GoodOutputs(groupBy, outputs, main)
    requires g in GroupsOf(groupBy, rows, main) && h in GroupsOf(groupBy, rows, main)
    requires OutRow(groupBy, outputs, g, main) == OutRow(groupBy, outputs, h, main)
    ensures g == h
  {
    if groupBy != [] {
      GroupsKeyed(groupBy, rows, main);
      forall i | 0 <= i < |groupBy|
        ensures g.key[i] == h.key[i]
      {
        KeyDocAt(groupBy, g.key, i);
        KeyDocAt(groupBy, h.key, i);
        assert HasName(groupBy, groupBy[i].name);
        assert OutRow(groupBy, outputs, g, main)[groupBy[i].name] == g.key[i];
        assert OutRow(groupBy, outputs, h, main)[groupBy[i].name] == h.key[i];
      }
      assert g.key == h.key;
      GroupByKey(groupBy, rows, main, g);
      GroupByKey(groupBy, rows, main, h);
    }
  }

  lemma {:induction false} GroupByKey(groupBy: seq<Expr>, rows: seq<Row>, main: string, g: GroupOf)
    requires AllCols(groupBy) && groupBy != [] && g in GroupsOf(groupBy, rows, main)
    ensures g == MakeGroup(groupBy, rows, main)(g.key)
  {
    var gs := GroupsOf(groupBy, rows, main);
    var i :| 0 <= i < |gs| && gs[i] == g;
  }

  // ----- images -----

  /** The function tells these elements apart. */
  ghost predicate Apart<A(!new), B(!new)>(f: A -> B, s: seq<A>) {
    forall x, y :: x in s && y in s && f(x) == f(y) ==> x == y
  }

  lemma {:induction false} FilteredImage<A(!new), B(!new)>(f: A -> B, p: A -> bool, q: A -> bool, s: seq<A>)
    requires Apart(f, s)
    ensures Seqs.Map(f, Seqs.Filter(p, s)) == Seqs.Map(f, Seqs.Filter(q, s)) <==> forall x :: x in s ==> p(x) == q(x)
  {
    if forall x :: x in s ==> p(x) == q(x) {
      Seqs.FilterCong(p, q, s);
    }
    if Seqs.Map(f, Seqs.Filter(p, s)) == Seqs.Map(f, Seqs.Filter(q, s)) {
      forall x | x in s
        ensures p(x) == q(x)
      {
        if p(x) { ImageHolds(f, Seqs.Filter(p, s), Seqs.Filter(q, s), s, x); }
        if q(x) { ImageHolds(f, Seqs.Filter(q, s), Seqs.Filter(p, s), s, x); }
      }
    }
  }

  lemma {:induction false} ImageHolds<A(!new), B(!new)>(f: A -> B, a: seq<A>, b: seq<A>, s: seq<A>, x: A)
    requires Apart(f, s)
    requires Seqs.Map(f, a) == Seqs.Map(f, b) && (forall y :: y in a || y in b ==> y in s) && x in a
    ensures x in b
  {
    var i :| 0 <= i < |a| && a[i] == x;
    assert Seqs.Map(f, b)[i] == f(x) && b[i] in b;
  }

  lemma {:induction false} SameImage<A(!new), B(!new)>(f: A -> B, a: seq<A>, b: seq<A>, s: seq<A>)
    requires Apart(f, s)
    requires forall y :: y in a || y in b ==> y in s
    ensures Seqs.Map(f, a) == Seqs.Map(f, b) <==> a == b
  {
    if Seqs.Map(f, a) == Seqs.Map(f, b) {
      assert |a| == |Seqs.Map(f, a)| == |b|;
      forall i | 0 <= i < |a|
        ensures a[i] == b[i]
      {
        assert Seqs.Map(f, a)[i] == Seqs.Map(f, b)[i];
        assert a[i] in a && b[i] in b;
      }
    }
  }

  lemma {:induction false} SortedImage<A(!new), B(!new)>(f: A -> B, before: (A, A) -> bool, s: seq<A>, u: seq<A>)
    requires Apart(f, u)
    requires Orders(before, s) && forall x :: x in s ==> x in u
    ensures Seqs.Map(f, s) == Seqs.Map(f, SortBy(before, s)) <==> Sorted(before, s)
  {
    SortHolds(before, s);
    SameImage(f, s, SortBy(before, s), u);
    SortedExactly(before, s);
  }

  // ----- HAVING -----

  lemma {:induction false} GroupsApart(q: Query, groupBy: seq<Expr>, db: M.Database)
    requires Groups(q, groupBy) && QueryRead(q, PlanItemsOf(q.exprs).items, groupBy, db)
    ensures Apart(OutRows(groupBy, SelectedState(PlanItemsOf(q.exprs).items, MainAlias(q.from)).value.outputs, MainAlias(q.from)),
                  GroupsOf(groupBy, PassingRows(q, db), MainAlias(q.from)))
  {
    var items, main := PlanItemsOf(q.exprs).items, MainAlias(q.from);
    var st := SelectedState(items, main).value;
    var gs := GroupsOf(groupBy, PassingRows(q, db), main);
    GroupsPlanned(q, groupBy);
    PlannedOutputs(groupBy, items, PlanHaving(q.having, st, main).value, q.having, main);
    forall g, h | g in gs && h in gs && OutRows(groupBy, st.outputs, main)(g) == OutRows(groupBy, st.outputs, main)(h)
      ensures g == h
    {
      OutRowsInjective(groupBy, st.outputs, PassingRows(q, db), main, g, h);
    }
  }

  /** A grouped statement returns the rows of SQL's groups exactly if HAVING, with NULL for the columns named with their table, keeps the same groups. */
  lemma {:induction false} QualifiedHavingExactly(q: Query, groupBy: seq<Expr>, db: M.Database)
    requires Groups(q, groupBy) && QueryRead(q, PlanItemsOf(q.exprs).items, groupBy, db)
    ensures var items, main := PlanItemsOf(q.exprs).items, MainAlias(q.from);
            var outputs := SelectedState(items, main).value.outputs;
            M.Run(RowsPipeline(q).value, MainDocs(q, db), db) == Seqs.Map(OutRows(groupBy, outputs, main), SqlGroups(q, groupBy, db))
            <==> forall g :: g in GroupsOf(groupBy, PassingRows(q, db), main) ==>
                               ReadHolds(q.having, groupBy, outputs, main)(g) == HavingHolds(q.having, groupBy, outputs, main)(g)
  {
    ReadDocs(q, groupBy, db);
    GroupsApart(q, groupBy, db);
    GroupsFiltered(q, groupBy, db);
  }

  lemma {:induction false} GroupsFiltered(q: Query, groupBy: seq<Expr>, db: M.Database)
    requires Groups(q, groupBy)
    requires Apart(OutRows(groupBy, SelectedState(PlanItemsOf(q.exprs).items, MainAlias(q.from)).value.outputs, MainAlias(q.from)),
                   GroupsOf(groupBy, PassingRows(q, db), MainAlias(q.from)))
    ensures var outputs, main := SelectedState(PlanItemsOf(q.exprs).items, MainAlias(q.from)).value.outputs, MainAlias(q.from);
            Seqs.Map(OutRows(groupBy, outputs, main), PipelineGroups(q, groupBy, db))
            == Seqs.Map(OutRows(groupBy, outputs, main), SqlGroups(q, groupBy, db))
            <==> forall g :: g in GroupsOf(groupBy, PassingRows(q, db), main) ==>
                               ReadHolds(q.having, groupBy, outputs, main)(g) == HavingHolds(q.having, groupBy, outputs, main)(g)
  {
    var outputs, main := SelectedState(PlanItemsOf(q.exprs).items, MainAlias(q.from)).value.outputs, MainAlias(q.from);
    FilteredImage(OutRows(groupBy, outputs, main), ReadHolds(q.having, groupBy, outputs, main), HavingHolds(q.having, groupBy, outputs, main),
                  GroupsOf(groupBy, PassingRows(q, db), main));
  }

  // ----- ORDER BY -----

  /** ORDER BY one column of a joined table. */
  predicate OrdersByJoined(q: Query) {
    |q.orderBy| == 1 && q.orderBy[0].e.Col? && q.orderBy[0].e.qual !in {"", MainAlias(q.from)}
    && GoodName(q.orderBy[0].e.qual) && GoodName(q.orderBy[0].e.name)
  }

  function ColumnOfGroup(e: Expr, main: string): GroupOf -> Value {
    (g: GroupOf) => if e.Col? then GroupColumn(g, e.qual, e.name, main) else Null
  }

  function NoValue(g: GroupOf): Value {
    Null
  }

  lemma {:induction false} TailOfNull(orders: seq<Order>, keys: seq<M.SortKey>, f: GroupOf -> Document, gs: seq<GroupOf>,
                                      skip: nat, limit: nat, db: M.Database)
    requires |orders| == |keys| == 1 && keys[0].descending == orders[0].descending
    requires forall g :: g in gs ==> NullOf(Get(f(g), keys[0].path)) == Null
    ensures M.Run(Stages.Tail(keys, skip, limit), Seqs.Map(f, gs), db) == Seqs.Map(f, Slice(skip, limit, gs))
  {
    TailCorrect(orders, keys, NoValue, f, gs, skip, limit, db);
    NeverBefore(ByValue(NoValue, orders[0].descending), gs);
  }

  /** It sorts by a path that no output row has: the groups stay as they come. */
  lemma {:induction false} JoinedOrderIgnored(q: Query, groupBy: seq<Expr>, print_: Expr -> string, db: M.Database)
    requires Groups(q, groupBy) && QueryFits(q, PlanItemsOf(q.exprs).items, groupBy, db)
    requires BuildAggregate(q, print_).Success? && OrdersByJoined(q)
    ensures var items, main := PlanItemsOf(q.exprs).items, MainAlias(q.from);
            StatementDocs(BuildAggregate(q, print_).value, db)
            == Seqs.Map(OutRows(groupBy, SelectedState(items, main).value.outputs, main), SqlLimited(q, SqlGroups(q, groupBy, db)))
  {
    LimitedIs(q, SqlGroups(q, groupBy, db));
    if !(q.limit.Some? && q.limit.value.count == Some(0)) {
      var items, main, gs := PlanItemsOf(q.exprs).items, MainAlias(q.from), SqlGroups(q, groupBy, db);
      var out := OutRows(groupBy, SelectedState(items, main).value.outputs, main);
      GroupsThenTail(q, groupBy, print_, db);
      var keys := OrderKeys(q.orderBy, items, main).value;
      OrderKeysOne(q.orderBy, items, main);
      forall g | g in gs
        ensures NullOf(Get(out(g), keys[0].path)) == Null
      {
        JoinedKeyReads(q, groupBy, db, g);
      }
      TailOfNull(q.orderBy, keys, out, gs, OffsetOf(q), LimitOf(q), db);
    }
  }

  lemma {:induction false} JoinedKeyReads(q: Query, groupBy: seq<Expr>, db: M.Database, g: GroupOf)
    requires Groups(q, groupBy) && QueryFits(q, PlanItemsOf(q.exprs).items, groupBy, db) && g in SqlGroups(q, groupBy, db) && OrdersByJoined(q)
    ensures var main, e := MainAlias(q.from), q.orderBy[0].e;
            NullOf(Get(OutRow(groupBy, SelectedState(PlanItemsOf(q.exprs).items, main).value.outputs, g, main),
                       Compiler.PathOf(e.qual, e.name, main))) == Null
  {
    var main, e := MainAlias(q.from), q.orderBy[0].e;
    GroupsKeyed(groupBy, PassingRows(q, db), main);
    AnyOrder.MembersPass(q, groupBy, db, g);
    QualifiedHavingReadsNull(groupBy, SelectedState(PlanItemsOf(q.exprs).items, main).value.outputs, g, main, e.qual, e.name);
  }

  lemma {:induction false} ByValueOrders<A(!new)>(value: A -> Value, descending: bool, s: seq<A>)
    requires forall x :: x in s ==> IsScalar(value(x))
    ensures Orders(ByValue(value, descending), s)
  {
    forall a, b, c | a in s && b in s && c in s
      ensures !ByValue(value, descending)(a, a)
      ensures !(ByValue(value, descending)(a, b) && ByValue(value, descending)(b, a))
      ensures !ByValue(value, descending)(b, a) && !ByValue(value, descending)(c, b) ==> !ByValue(value, descending)(c, a)
    {
      LevelValues(value(a), value(b), value(c));
      LevelValues(value(c), value(b), value(a));
    }
  }

  lemma {:induction false} LevelValues(x: Value, y: Value, z: Value)
    requires IsScalar(x) && IsScalar(y) && IsScalar(z)
    ensures !Less(x, x) && !(Less(x, y) && Less(y, x)) && (!Less(y, x) && !Less(z, y) ==> !Less(z, x))
  {
    LessTrichotomy(x, x);
    LessTrichotomy(x, y);
    LessTrichotomy(y, z);
    if Less(z, x) && Less(x, y) { LessTransitive(z, x, y); }
    if Less(z, x) && Less(y, z) { LessTransitive(y, z, x); }
  }

  /** Without LIMIT, that is SQL's order exactly if the groups come sorted by the column already. */
  lemma {:induction false} JoinedOrderExactly(q: Query, groupBy: seq<Expr>, print_: Expr -> string, db: M.Database)
    requires Groups(q, groupBy) && QueryFits(q, PlanItemsOf(q.exprs).items, groupBy, db)
    requires BuildAggregate(q, print_).Success? && OrdersByJoined(q) && q.limit.None?
    requires forall g :: g in SqlGroups(q, groupBy, db) ==> IsScalar(ColumnOfGroup(q.orderBy[0].e, MainAlias(q.from))(g))
    ensures var items, main := PlanItemsOf(q.exprs).items, MainAlias(q.from);
            var value := ColumnOfGroup(q.orderBy[0].e, main);
            StatementDocs(BuildAggregate(q, print_).value, db)
            == Seqs.Map(OutRows(groupBy, SelectedState(items, main).value.outputs, main),
                        SqlOrder(q.orderBy, value, SqlGroups(q, groupBy, db)))
            <==> Sorted(ByValue(value, q.orderBy[0].descending), SqlGroups(q, groupBy, db))
  {
    var items, main, gs := PlanItemsOf(q.exprs).items, MainAlias(q.from), SqlGroups(q, groupBy, db);
    var before := ByValue(ColumnOfGroup(q.orderBy[0].e, main), q.orderBy[0].descending);
    JoinedOrderIgnored(q, groupBy, print_, db);
    NoLimit(q, gs);
    GroupsApart(q, groupBy, db);
    ByValueOrders(ColumnOfGroup(q.orderBy[0].e, main), q.orderBy[0].descending, gs);
    SortedImage(OutRows(groupBy, SelectedState(items, main).value.outputs, main), before, gs, GroupsOf(groupBy, PassingRows(q, db), main));
  }
}
