/** Whatever order $group gives its groups in. */
module AnyOrder {
  import opened Wrappers
  import opened Bson
  import opened Sql
  import opened JoinTheorem
  import opened Select
  import Aggregates
  import opened GroupTheorem
  import opened QueryTheorem
  import Ordering
  import opened SortKeys
  import opened Stages
  import Render
  import opened RenderTheorem
  import M = Mongo
  import SetFunctions
  import Seqs

  lemma {:induction false} AggScalar(spec: AggSpec, members: seq<Row>, main: string)
    ensures IsScalar(Aggregates.SqlAgg(spec, members, main))
  {
    if spec.AggOf? {
      var vs := Aggregates.ArgsOf(spec.arg, members, main);
      if SetFunctions.AllScalar(vs) {
        assert forall v :: v in SetFunctions.Considered(spec.distinct, vs) ==> v in vs;
      }
    }
  }

  lemma {:induction false} ItemScalar(groupBy: seq<Expr>, item: SelectItem, g: GroupOf, main: string)
    requires AllCols(groupBy) && GoodItem(item, groupBy, main)
    requires forall row :: row in g.members ==> KeyPresent(groupBy, row, main)
    ensures IsScalar(SelectValue(item, g, main))
  {
    if item.AggItem? {
      AggScalar(item.spec, g.members, main);
    } else if item.FieldItem? && g.members != [] {
      var k :| 0 <= k < |groupBy| && groupBy[k].name == item.name && SameSource(item.qual, groupBy[k].qual, main);
      assert g.members[0] in g.members && ColumnPresent(groupBy[k], g.members[0], main);
    }
  }

  lemma {:induction false} OrderScalar(q: Query, groupBy: seq<Expr>, db: M.Database, g: GroupOf)
    requires Groups(q, groupBy) && QueryFits(q, PlanItemsOf(q.exprs).items, groupBy, db)
    requires OrdersByItem(q, MainAlias(q.from)) && q.orderBy != [] && g in SqlGroups(q, groupBy, db)
    ensures IsScalar(GroupOrder(q, MainAlias(q.from))(g))
  {
    var items, main := PlanItemsOf(q.exprs).items, MainAlias(q.from);
    assert q.orderBy[0] in q.orderBy;
    var item := ItemOrdered(q.orderBy[0].e, items, main).value;
    var i :| 0 <= i < |items| && items[i] == item;
    MembersPass(q, groupBy, db, g);
    ItemScalar(groupBy, item, g, main);
  }

  lemma {:induction false} MembersPass(q: Query, groupBy: seq<Expr>, db: M.Database, g: GroupOf)
    requires Groups(q, groupBy) && g in SqlGroups(q, groupBy, db)
    ensures forall row :: row in g.members ==> row in PassingRows(q, db)
  {
    var gs := GroupsOf(groupBy, PassingRows(q, db), MainAlias(q.from));
    var i :| 0 <= i < |gs| && gs[i] == g;
  }

  /** The documents after HAVING, whatever order $group gave its groups in. */
  lemma {:induction false} HavingAnyOrder(q: Query, groupBy: seq<Expr>, h: HavingPlan, db: M.Database, grouped: seq<Document>)
    requires Groups(q, groupBy) && QueryFits(q, PlanItemsOf(q.exprs).items, groupBy, db)
    requires PlanHaving(q.having, SelectedState(PlanItemsOf(q.exprs).items, MainAlias(q.from)).value, MainAlias(q.from)) == Success(h)
    requires AllAccumulate(h.st.outputs, MainAlias(q.from)) && HavingStages(h).Success?
    requires multiset(grouped)
             == multiset(M.Run(GroupingStages(groupBy, h.st, MainAlias(q.from)),
                               Seqs.Map(AsJoined(MainAlias(q.from)), PassingRows(q, db)), db))
    ensures var items, main := PlanItemsOf(q.exprs).items, MainAlias(q.from);
            multiset(M.Run(HavingStages(h).value, grouped, db))
            == multiset(Seqs.Map(OutRows(groupBy, SelectedState(items, main).value.outputs, main), SqlGroups(q, groupBy, db)))
  {
    var items, main := PlanItemsOf(q.exprs).items, MainAlias(q.from);
    var docs := Seqs.Map(AsJoined(main), PassingRows(q, db));
    GroupsPlanned(q, groupBy);
    GroupedDocs(groupBy, items, q.having, PassingRows(q, db), main, db);
    RunAppend(GroupingStages(groupBy, h.st, main), HavingStages(h).value, docs, db);
    HavingOrderFree(h, grouped, M.Run(GroupingStages(groupBy, h.st, main), docs, db), db);
  }

  lemma {:induction false} KeyIsScalar(q: Query, groupBy: seq<Expr>, keys: seq<M.SortKey>, db: M.Database, g: GroupOf)
    requires Groups(q, groupBy) && QueryFits(q, PlanItemsOf(q.exprs).items, groupBy, db) && g in SqlGroups(q, groupBy, db)
    requires OrdersByItem(q, MainAlias(q.from)) && Render.OrderKeys(q.orderBy, PlanItemsOf(q.exprs).items, MainAlias(q.from)) == Success(keys)
    ensures KeysScalar(keys, OutRow(groupBy, SelectedState(PlanItemsOf(q.exprs).items, MainAlias(q.from)).value.outputs, g, MainAlias(q.from)))
  {
    OrderKeysOne(q.orderBy, PlanItemsOf(q.exprs).items, MainAlias(q.from));
    if keys != [] {
      GroupKeyReads(q, groupBy, db, g);
      OrderScalar(q, groupBy, db, g);
      OneKeyScalar(keys, OutRow(groupBy, SelectedState(PlanItemsOf(q.exprs).items, MainAlias(q.from)).value.outputs, g, MainAlias(q.from)));
    }
  }

  lemma {:induction false} OneKeyScalar(keys: seq<M.SortKey>, d: Document)
    requires |keys| == 1 && IsScalar(NullOf(Get(d, keys[0].path)))
    ensures KeysScalar(keys, d)
  {
  }

  lemma {:induction false} ImagesFit<A(!new), B(!new)>(f: A -> B, p: B -> bool, s: seq<A>, images: seq<B>)
    requires multiset(images) == multiset(Seqs.Map(f, s)) && forall x :: x in s ==> p(f(x))
    ensures forall y :: y in images ==> p(y)
  {
    forall y | y in images
      ensures p(y)
    {
      assert y in multiset(images);
      var i := Seqs.IndexIn(y, Seqs.Map(f, s));
      assert s[i] in s;
    }
  }

  function ScalarKeys(keys: seq<M.SortKey>): Document -> bool {
    (d: Document) => KeysScalar(keys, d)
  }

  lemma {:induction false} KeysAreScalar(q: Query, groupBy: seq<Expr>, keys: seq<M.SortKey>, db: M.Database, docs: seq<Document>)
    requires Groups(q, groupBy) && QueryFits(q, PlanItemsOf(q.exprs).items, groupBy, db)
    requires OrdersByItem(q, MainAlias(q.from)) && Render.OrderKeys(q.orderBy, PlanItemsOf(q.exprs).items, MainAlias(q.from)) == Success(keys)
    requires multiset(docs) == multiset(Seqs.Map(OutRows(groupBy, SelectedState(PlanItemsOf(q.exprs).items, MainAlias(q.from)).value.outputs,
                                                         MainAlias(q.from)), SqlGroups(q, groupBy, db)))
    ensures forall d :: d in docs ==> ScalarKeys(keys)(d)
  {
    var out := OutRows(groupBy, SelectedState(PlanItemsOf(q.exprs).items, MainAlias(q.from)).value.outputs, MainAlias(q.from));
    forall g | g in SqlGroups(q, groupBy, db)
      ensures ScalarKeys(keys)(out(g))
    {
      KeyIsScalar(q, groupBy, keys, db, g);
    }
    ImagesFit(out, ScalarKeys(keys), SqlGroups(q, groupBy, db), docs);
  }

  /** ORDER BY without LIMIT: SQL's rows, sorted, whatever order $group gives its groups in. */
  lemma {:induction false} SortedAnyOrder(q: Query, groupBy: seq<Expr>, h: HavingPlan, keys: seq<M.SortKey>, db: M.Database,
                                          grouped: seq<Document>)
    requires Groups(q, groupBy) && QueryFits(q, PlanItemsOf(q.exprs).items, groupBy, db)
    requires PlanHaving(q.having, SelectedState(PlanItemsOf(q.exprs).items, MainAlias(q.from)).value, MainAlias(q.from)) == Success(h)
    requires AllAccumulate(h.st.outputs, MainAlias(q.from)) && HavingStages(h).Success?
    requires OrdersByItem(q, MainAlias(q.from)) && Render.OrderKeys(q.orderBy, PlanItemsOf(q.exprs).items, MainAlias(q.from)) == Success(keys)
    requires multiset(grouped)
             == multiset(M.Run(GroupingStages(groupBy, h.st, MainAlias(q.from)),
                               Seqs.Map(AsJoined(MainAlias(q.from)), PassingRows(q, db)), db))
    ensures var out := M.Run(HavingStages(h).value + Tail(keys, 0, 0), grouped, db);
            multiset(Seqs.Map(Observed(PlanItemsOf(q.exprs).items, MainAlias(q.from)), out))
            == multiset(Seqs.Map(SelectRow(PlanItemsOf(q.exprs).items, MainAlias(q.from)), SqlGroups(q, groupBy, db)))
            && Ordering.Sorted(M.Comes(keys), out)
  {
    var items, main := PlanItemsOf(q.exprs).items, MainAlias(q.from);
    var kept := M.Run(HavingStages(h).value, grouped, db);
    var rows := Seqs.Map(OutRows(groupBy, SelectedState(items, main).value.outputs, main), SqlGroups(q, groupBy, db));
    HavingAnyOrder(q, groupBy, h, db, grouped);
    KeysAreScalar(q, groupBy, keys, db, kept);
    SortedTail(keys, HavingStages(h).value, grouped, db);
    var out := M.Run(HavingStages(h).value + Tail(keys, 0, 0), grouped, db);
    Seqs.MapMultiset(Observed(items, main), out, rows);
    GroupsObserved(q, groupBy, SqlGroups(q, groupBy, db), db);
  }

  /** Sorting without limits permutes and sorts; without keys nothing is out of order. */
  lemma {:induction false} SortedTail(keys: seq<M.SortKey>, p: seq<M.Stage>, docs: seq<Document>, db: M.Database)
    requires forall d :: d in M.Run(p, docs, db) ==> ScalarKeys(keys)(d)
    ensures var out := M.Run(p + Tail(keys, 0, 0), docs, db);
            multiset(out) == multiset(M.Run(p, docs, db)) && Ordering.Sorted(M.Comes(keys), out)
  {
    var kept := M.Run(p, docs, db);
    RunAppend(p, Tail(keys, 0, 0), docs, db);
    TailRun(keys, 0, 0, kept, db);
    if keys == [] {
      NoKeysNoSort(kept);
    }
    SortDocsSorts(keys, kept);
  }
}
