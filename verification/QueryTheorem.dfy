/** A grouped SELECT, from its tables to its result: the pipeline computes SQL's rows. */
module QueryTheorem {
  import opened Wrappers
  import opened Bson
  import opened Sql
  import ValueTheorem
  import opened WhereTheorem
  import opened JoinTheorem
  import opened Select
  import opened HavingTheorem
  import Aggregates
  import opened GroupTheorem
  import Facet
  import opened GroupedQuery
  import M = Mongo
  import W = Where
  import Source
  import Seqs

  // ----- WHERE -----

  predicate WhereHolds(where_: Option<Expr>, row: Row, main: string) {
    where_.None? || IsTrueOf(Eval(where_.value, EnvOf(row, main)))
  }

  function WherePasses(where_: Option<Expr>, main: string): Row -> bool {
    (row: Row) => WhereHolds(where_, row, main)
  }

  /** WHERE reads columns of the row and lies in the fragment of the WHERE theorem. */
  ghost predicate WhereFits(where_: Option<Expr>, row: Row, main: string) {
    WellFormed(row, main) && GoodName(main)
    && (where_.Some? ==>
          var e := W.Unqualify(where_.value, main);
          ValueTheorem.Plain(e) && Fits(e, true, EnvOf(row, main), DocOf(row, main))
          && forall c :: c in Cols(where_.value) ==> Readable(row, main, c.0, c.1))
  }

  lemma {:induction false} WhereRow(e: Expr, row: Row, main: string)
    requires WhereFits(Some(e), row, main) && W.TranslateWhere(W.Unqualify(e, main)).Success?
    ensures M.Matches(W.TranslateWhere(W.Unqualify(e, main)).value, DocOf(row, main)) <==> WhereHolds(Some(e), row, main)
  {
    var env, doc, u := EnvOf(row, main), DocOf(row, main), W.Unqualify(e, main);
    UnqualifyCols(e, main);
    forall c | c in Cols(u)
      ensures ValueTheorem.ColumnAgrees(doc, env, "", c)
    {
      DocReads(row, main, c.0, c.1);
    }
    WhereExact(u, env, doc);
    UnqualifyEval(e, env, main);
  }

  /** The $match keeps the documents of the rows WHERE keeps. */
  lemma {:induction false} WhereCorrect(where_: Option<Expr>, rows: seq<Row>, main: string, db: M.Database)
    requires WhereStages(where_, main).Success?
    requires forall row :: row in rows ==> WhereFits(where_, row, main)
    ensures M.Run(WhereStages(where_, main).value, Seqs.Map(AsJoined(main), rows), db)
            == Seqs.Map(AsJoined(main), Seqs.Filter(WherePasses(where_, main), rows))
  {
    if where_.None? {
      Seqs.FilterAll(WherePasses(where_, main), rows);
    } else {
      WhereFilters(where_.value, rows, main);
      MatchRuns(W.TranslateWhere(W.Unqualify(where_.value, main)).value, Seqs.Map(AsJoined(main), rows), db);
    }
  }

  lemma {:induction false} MatchRuns(f: M.Filter, docs: seq<Document>, db: M.Database)
    ensures M.Run([M.Match(f)], docs, db) == Seqs.Filter(M.Matcher(f), docs)
  {
    Facet.RunOne(M.Match(f), docs, db);
    M.MatchRuns(f, docs, db);
  }

  lemma {:induction false} WhereFilters(e: Expr, rows: seq<Row>, main: string)
    requires W.TranslateWhere(W.Unqualify(e, main)).Success? && forall row :: row in rows ==> WhereFits(Some(e), row, main)
    ensures Seqs.Filter(M.Matcher(W.TranslateWhere(W.Unqualify(e, main)).value), Seqs.Map(AsJoined(main), rows))
            == Seqs.Map(AsJoined(main), Seqs.Filter(WherePasses(Some(e), main), rows))
  {
    var f := W.TranslateWhere(W.Unqualify(e, main)).value;
    forall row | row in rows
      ensures WherePasses(Some(e), main)(row) == M.Matcher(f)(AsJoined(main)(row))
    {
      WhereRow(e, row, main);
    }
    Seqs.FilterMap(M.Matcher(f), AsJoined(main), WherePasses(Some(e), main), rows);
  }

  // ----- the select list -----

  predicate SameSource(q: string, r: string, main: string) {
    q == r || (q in {"", main} && r in {"", main})
  }

  predicate GroupedBy(groupBy: seq<Expr>, q: string, n: string, main: string)
    requires AllCols(groupBy)
  {
    exists k :: 0 <= k < |groupBy| && groupBy[k].name == n && SameSource(q, groupBy[k].qual, main)
  }

  /** The select list: unaliased grouping columns, and aggregates named unlike those and `_id`. */
  predicate GoodItem(item: SelectItem, groupBy: seq<Expr>, main: string)
    requires AllCols(groupBy)
  {
    match item
    case FieldItem(q, n, alias) => alias == "" && GroupedBy(groupBy, q, n, main)
    case AggItem(_, _) => NameOf(item, main) != "_id" && !HasName(groupBy, NameOf(item, main))
    case ExprItem(_, _) => false
  }

  ghost predicate GoodGrouping(groupBy: seq<Expr>, items: seq<SelectItem>, main: string)
    requires AllCols(groupBy)
  {
    GoodItems(items, main) && DistinctCols(groupBy)
    && (forall n :: HasName(groupBy, n) ==> NotHidden(n))
    && (forall i :: 0 <= i < |items| ==> GoodItem(items[i], groupBy, main))
    && (groupBy != [] || exists i :: 0 <= i < |items| && items[i].AggItem?)
  }

  /** SQL's value of a select item for a group: any of its rows gives a grouping column. */
  ghost function SelectValue(item: SelectItem, g: GroupOf, main: string): Value {
    match item
    case FieldItem(q, n, _) => if g.members == [] then Null else EnvOf(g.members[0], main).col(q, n)
    case AggItem(spec, _) => Aggregates.SqlAgg(spec, g.members, main)
    case ExprItem(_, _) => Null
  }

  ghost function SelectRow(items: seq<SelectItem>, main: string): GroupOf -> seq<Value> {
    (g: GroupOf) => Seqs.Map(ItemValue(g, main), items)
  }

  ghost function ItemValue(g: GroupOf, main: string): SelectItem -> Value {
    (item: SelectItem) => SelectValue(item, g, main)
  }

  /** A result row as the client sees it: the fields of the select list, in order. */
  function Observed(items: seq<SelectItem>, main: string): Document -> seq<Value> {
    (d: Document) => Seqs.Map(FieldReader(d, main), items)
  }

  function FieldReader(d: Document, main: string): SelectItem -> Value {
    (item: SelectItem) => NullOf(Get(d, NameOf(item, main)))
  }

  /** A group's rows all have its key. */
  predicate Keyed(groupBy: seq<Expr>, g: GroupOf, main: string)
    requires AllCols(groupBy)
  {
    |g.key| == |groupBy| && (groupBy != [] ==> g.members != [])
    && forall row :: row in g.members ==> KeyOfRow(groupBy, row, main) == g.key
  }

  lemma {:induction false} KeyAt(groupBy: seq<Expr>, row: Row, main: string, i: nat)
    requires AllCols(groupBy) && i < |groupBy|
    ensures KeyOfRow(groupBy, row, main)[i] == EnvOf(row, main).col(groupBy[i].qual, groupBy[i].name)
  {
    if i < |groupBy| - 1 {
      KeyAt(groupBy[..|groupBy| - 1], row, main, i);
    }
  }

  lemma {:induction false} GroupsKeyed(groupBy: seq<Expr>, rows: seq<Row>, main: string)
    requires AllCols(groupBy)
    ensures forall g :: g in GroupsOf(groupBy, rows, main) ==> Keyed(groupBy, g, main)
  {
    if groupBy != [] {
      var keys := Seqs.Map(KeyReader(groupBy, main), rows);
      forall g | g in GroupsOf(groupBy, rows, main)
        ensures Keyed(groupBy, g, main)
      {
        var j :| 0 <= j < |GroupsOf(groupBy, rows, main)| && GroupsOf(groupBy, rows, main)[j] == g;
        var key := Seqs.Distinct(keys)[j];
        assert key in keys;
        var i :| 0 <= i < |keys| && keys[i] == key;
        assert rows[i] in rows && HasKey(groupBy, key, main)(rows[i]);
        assert rows[i] in g.members;
      }
    } else {
      forall row | row in rows
        ensures KeyOfRow(groupBy, row, main) == []
      {
      }
    }
  }

  lemma {:induction false} FieldObserved(item: SelectItem, groupBy: seq<Expr>, outputs: map<string, AggSpec>, g: GroupOf, main: string)
    requires AllCols(groupBy) && GoodOutputs(groupBy, outputs, main) && Keyed(groupBy, g, main)
    requires item.FieldItem? && GoodItem(item, groupBy, main) && GoodName(item.name)
    ensures NullOf(Get(OutRow(groupBy, outputs, g, main), NameOf(item, main))) == SelectValue(item, g, main)
  {
    var k :| 0 <= k < |groupBy| && groupBy[k].name == item.name && SameSource(item.qual, groupBy[k].qual, main);
    var row := g.members[0];
    assert row in g.members;
    KeyAt(groupBy, row, main, k);
    KeyDocAt(groupBy, g.key, k);
    assert HasName(groupBy, item.name);
    GetName(OutRow(groupBy, outputs, g, main), item.name);
  }

  lemma {:induction false} AggObserved(item: SelectItem, groupBy: seq<Expr>, outputs: map<string, AggSpec>, g: GroupOf, main: string)
    requires AllCols(groupBy) && item.AggItem? && GoodName(NameOf(item, main))
    requires NameOf(item, main) in outputs && outputs[NameOf(item, main)] == item.spec
    ensures NullOf(Get(OutRow(groupBy, outputs, g, main), NameOf(item, main))) == SelectValue(item, g, main)
  {
    OutRowReads(groupBy, outputs, g, main, NameOf(item, main));
  }

  lemma {:induction false} ItemObserved(groupBy: seq<Expr>, items: seq<SelectItem>, item: SelectItem, g: GroupOf, main: string)
    requires AllCols(groupBy) && GoodGrouping(groupBy, items, main) && Keyed(groupBy, g, main)
    requires SelectedState(items, main).Success? && item in items
    requires GoodOutputs(groupBy, SelectedState(items, main).value.outputs, main)
    ensures NullOf(Get(OutRow(groupBy, SelectedState(items, main).value.outputs, g, main), NameOf(item, main)))
            == SelectValue(item, g, main)
  {
    var outputs := SelectedState(items, main).value.outputs;
    var i :| 0 <= i < |items| && items[i] == item;
    SelectedConsistent(items, main);
    if item.FieldItem? {
      FieldObserved(item, groupBy, outputs, g, main);
    } else {
      AggObserved(item, groupBy, outputs, g, main);
    }
  }

  /** An output row holds SQL's values of the select list. */
  lemma {:induction false} RowObserved(groupBy: seq<Expr>, items: seq<SelectItem>, g: GroupOf, main: string)
    requires AllCols(groupBy) && GoodGrouping(groupBy, items, main) && Keyed(groupBy, g, main)
    requires SelectedState(items, main).Success?
    requires GoodOutputs(groupBy, SelectedState(items, main).value.outputs, main)
    ensures Observed(items, main)(OutRow(groupBy, SelectedState(items, main).value.outputs, g, main))
            == SelectRow(items, main)(g)
  {
    var d := OutRow(groupBy, SelectedState(items, main).value.outputs, g, main);
    forall item | item in items
      ensures FieldReader(d, main)(item) == ItemValue(g, main)(item)
    {
      ItemObserved(groupBy, items, item, g, main);
    }
    Seqs.MapCong(FieldReader(d, main), ItemValue(g, main), items);
  }

  // ----- the names HAVING leaves -----

  lemma {:induction false} SelectedOutputs(groupBy: seq<Expr>, items: seq<SelectItem>, main: string)
    requires AllCols(groupBy) && GoodGrouping(groupBy, items, main) && SelectedState(items, main).Success?
    ensures var outputs := SelectedState(items, main).value.outputs;
            (groupBy != [] || outputs != map[])
            && forall n :: n in outputs ==> GoodName(n) && n != "_id" && !HasName(groupBy, n)
  {
    SelectedConsistent(items, main);
    var outputs := SelectedState(items, main).value.outputs;
    forall n | n in outputs
      ensures GoodName(n) && n != "_id" && !HasName(groupBy, n)
    {
      assert InList(items, outputs[n], n, main);
    }
    if groupBy == [] {
      var i :| 0 <= i < |items| && items[i].AggItem?;
      assert NameOf(items[i], main) in outputs;
    }
  }

  /** After HAVING the output names are still usable and distinct. */
  lemma {:induction false} PlannedOutputs(groupBy: seq<Expr>, items: seq<SelectItem>, h: HavingPlan, having: Option<Expr>, main: string)
    requires AllCols(groupBy) && GoodGrouping(groupBy, items, main) && SelectedState(items, main).Success?
    requires PlanHaving(having, SelectedState(items, main).value, main) == Success(h)
    requires AllAccumulate(h.st.outputs, main)
    ensures GoodOutputs(groupBy, h.st.outputs, main)
    ensures GoodOutputs(groupBy, SelectedState(items, main).value.outputs, main)
  {
    var st := SelectedState(items, main).value;
    SelectedOutputs(groupBy, items, main);
    SelectedConsistent(items, main);
    if having.Some? {
      RewriteAdvances(having.value, st, main);
    } else {
      GrowsReflexive(st);
    }
    forall n | n in h.st.outputs
      ensures GoodName(n) && n != "_id" && !HasName(groupBy, n)
    {
      if n !in st.outputs {
        var i :| 0 <= i < |h.st.hidden| && h.st.hidden[i] == n;
        HiddenNameGood(i);
      }
    }
  }

  // ----- the grouped query -----

  /** What a grouped SELECT asks of the rows that pass WHERE; `h` is how its HAVING was planned. */
  ghost predicate GroupsRead(groupBy: seq<Expr>, items: seq<SelectItem>, having: Option<Expr>, rows: seq<Row>, main: string)
    requires AllCols(groupBy) && Plans(items, having, main)
  {
    var st := SelectedState(items, main).value;
    var h := PlanHaving(having, st, main).value;
    GoodGrouping(groupBy, items, main)
    && (forall row :: row in rows ==> KeyPresent(groupBy, row, main))
    && forall g :: g in GroupsOf(groupBy, rows, main) ==>
                     GroupSafe(h.st.outputs, g.members, main)
                     && (having.Some? ==> HavingFits(having.value, groupBy, st, g, main))
  }

  /** And that its HAVING names columns without their tables. */
  ghost predicate GroupsFit(groupBy: seq<Expr>, items: seq<SelectItem>, having: Option<Expr>, rows: seq<Row>, main: string)
    requires AllCols(groupBy) && Plans(items, having, main)
  {
    GroupsRead(groupBy, items, having, rows, main) && NamesOutputs(having)
  }

  predicate Plans(items: seq<SelectItem>, having: Option<Expr>, main: string) {
    SelectedState(items, main).Success? && PlanHaving(having, SelectedState(items, main).value, main).Success?
  }

  lemma {:induction false} RowsObserved(groupBy: seq<Expr>, items: seq<SelectItem>, gs: seq<GroupOf>, main: string)
    requires AllCols(groupBy) && GoodGrouping(groupBy, items, main) && SelectedState(items, main).Success?
    requires GoodOutputs(groupBy, SelectedState(items, main).value.outputs, main)
    requires forall g :: g in gs ==> Keyed(groupBy, g, main)
    ensures Seqs.Map(Observed(items, main), Seqs.Map(OutRows(groupBy, SelectedState(items, main).value.outputs, main), gs))
            == Seqs.Map(SelectRow(items, main), gs)
  {
    var out := OutRows(groupBy, SelectedState(items, main).value.outputs, main);
    forall g | g in gs
      ensures SelectRow(items, main)(g) == Observed(items, main)(out(g))
    {
      RowObserved(groupBy, items, g, main);
    }
    Seqs.MapMap(Observed(items, main), out, SelectRow(items, main), gs);
  }

  /** HAVING's stages, whatever the order $group gave its groups in. */
  lemma {:induction false} HavingDocs(groupBy: seq<Expr>, items: seq<SelectItem>, having: Option<Expr>, gs: seq<GroupOf>, rows: seq<Row>,
                   main: string, db: M.Database)
    requires AllCols(groupBy) && Plans(items, having, main) && GroupsRead(groupBy, items, having, rows, main)
    requires GroupedStages(groupBy, items, having, main).Success?
    requires forall g :: g in gs ==> g in GroupsOf(groupBy, rows, main)
    ensures var st := SelectedState(items, main).value;
            var h := PlanHaving(having, st, main).value;
            M.Run(HavingStages(h).value, Seqs.Map(OutRows(groupBy, h.st.outputs, main), gs), db)
            == Seqs.Map(OutRows(groupBy, st.outputs, main), Seqs.Filter(ReadHolds(having, groupBy, st.outputs, main), gs))
  {
    var st := SelectedState(items, main).value;
    var h := PlanHaving(having, st, main).value;
    GroupsKeyed(groupBy, rows, main);
    PlannedOutputs(groupBy, items, h, having, main);
    SelectedConsistent(items, main);
    HavingCorrect(having, groupBy, st, gs, main, db);
  }

  lemma {:induction false} GroupedRun(groupBy: seq<Expr>, items: seq<SelectItem>, having: Option<Expr>, rows: seq<Row>, main: string, db: M.Database)
    requires AllCols(groupBy) && Plans(items, having, main) && GroupsRead(groupBy, items, having, rows, main)
    requires GroupedStages(groupBy, items, having, main).Success?
    ensures var h := PlanHaving(having, SelectedState(items, main).value, main).value;
            M.Run(GroupingStages(groupBy, h.st, main), Seqs.Map(AsJoined(main), rows), db)
            == Seqs.Map(OutRows(groupBy, h.st.outputs, main), GroupsOf(groupBy, rows, main))
  {
    var h := PlanHaving(having, SelectedState(items, main).value, main).value;
    PlannedOutputs(groupBy, items, h, having, main);
    GroupingCorrect(groupBy, h.st, rows, main, db);
  }

  /** The groups HAVING keeps, of the rows given. */
  ghost function KeptGroups(groupBy: seq<Expr>, items: seq<SelectItem>, having: Option<Expr>, rows: seq<Row>, main: string): seq<GroupOf>
    requires AllCols(groupBy) && SelectedState(items, main).Success?
  {
    Seqs.Filter(HavingHolds(having, groupBy, SelectedState(items, main).value.outputs, main), GroupsOf(groupBy, rows, main))
  }

  /** Those that the emitted filter keeps. */
  ghost function ReadGroups(groupBy: seq<Expr>, items: seq<SelectItem>, having: Option<Expr>, rows: seq<Row>, main: string): seq<GroupOf>
    requires AllCols(groupBy) && SelectedState(items, main).Success?
  {
    Seqs.Filter(ReadHolds(having, groupBy, SelectedState(items, main).value.outputs, main), GroupsOf(groupBy, rows, main))
  }

  lemma {:induction false} ReadIsKept(groupBy: seq<Expr>, items: seq<SelectItem>, having: Option<Expr>, rows: seq<Row>, main: string)
    requires AllCols(groupBy) && Plans(items, having, main) && GroupsFit(groupBy, items, having, rows, main)
    requires GroupedStages(groupBy, items, having, main).Success?
    ensures ReadGroups(groupBy, items, having, rows, main) == KeptGroups(groupBy, items, having, rows, main)
  {
    var st := SelectedState(items, main).value;
    GroupsKeyed(groupBy, rows, main);
    PlannedOutputs(groupBy, items, PlanHaving(having, st, main).value, having, main);
    SelectedConsistent(items, main);
    forall g | g in GroupsOf(groupBy, rows, main)
      ensures ReadHolds(having, groupBy, st.outputs, main)(g) == HavingHolds(having, groupBy, st.outputs, main)(g)
    {
      HavingAsRead(having, groupBy, st, g, main);
    }
    Seqs.FilterCong(ReadHolds(having, groupBy, st.outputs, main), HavingHolds(having, groupBy, st.outputs, main),
                    GroupsOf(groupBy, rows, main));
  }

  /** Grouping, HAVING and the drop of its fields give the output rows of the groups the filter keeps. */
  lemma {:induction false} GroupedReads(groupBy: seq<Expr>, items: seq<SelectItem>, having: Option<Expr>, rows: seq<Row>, main: string, db: M.Database)
    requires AllCols(groupBy) && Plans(items, having, main) && GroupsRead(groupBy, items, having, rows, main)
    requires GroupedStages(groupBy, items, having, main).Success?
    ensures M.Run(GroupedStages(groupBy, items, having, main).value, Seqs.Map(AsJoined(main), rows), db)
            == Seqs.Map(OutRows(groupBy, SelectedState(items, main).value.outputs, main),
                        ReadGroups(groupBy, items, having, rows, main))
  {
    var h := PlanHaving(having, SelectedState(items, main).value, main).value;
    RunAppend(GroupingStages(groupBy, h.st, main), HavingStages(h).value, Seqs.Map(AsJoined(main), rows), db);
    GroupedRun(groupBy, items, having, rows, main, db);
    HavingDocs(groupBy, items, having, GroupsOf(groupBy, rows, main), rows, main, db);
  }

  /** Without qualifiers, of the groups HAVING keeps. */
  lemma {:induction false} GroupedDocs(groupBy: seq<Expr>, items: seq<SelectItem>, having: Option<Expr>, rows: seq<Row>, main: string, db: M.Database)
    requires AllCols(groupBy) && Plans(items, having, main) && GroupsFit(groupBy, items, having, rows, main)
    requires GroupedStages(groupBy, items, having, main).Success?
    ensures M.Run(GroupedStages(groupBy, items, having, main).value, Seqs.Map(AsJoined(main), rows), db)
            == Seqs.Map(OutRows(groupBy, SelectedState(items, main).value.outputs, main),
                        KeptGroups(groupBy, items, having, rows, main))
  {
    GroupedReads(groupBy, items, having, rows, main, db);
    ReadIsKept(groupBy, items, having, rows, main);
  }

  /** The output rows of groups hold SQL's rows. */
  lemma {:induction false} KeptObserved(groupBy: seq<Expr>, items: seq<SelectItem>, having: Option<Expr>, rows: seq<Row>, gs: seq<GroupOf>, main: string)
    requires AllCols(groupBy) && Plans(items, having, main) && GroupsFit(groupBy, items, having, rows, main)
    requires GroupedStages(groupBy, items, having, main).Success?
    requires forall g :: g in gs ==> g in GroupsOf(groupBy, rows, main)
    ensures Seqs.Map(Observed(items, main), Seqs.Map(OutRows(groupBy, SelectedState(items, main).value.outputs, main), gs))
            == Seqs.Map(SelectRow(items, main), gs)
  {
    GroupsKeyed(groupBy, rows, main);
    PlannedOutputs(groupBy, items, PlanHaving(having, SelectedState(items, main).value, main).value, having, main);
    RowsObserved(groupBy, items, gs, main);
  }

  /** Grouping, HAVING and the drop of its fields give SQL's rows. */
  lemma {:induction false} GroupedCorrect(groupBy: seq<Expr>, items: seq<SelectItem>, having: Option<Expr>, rows: seq<Row>, main: string, db: M.Database)
    requires AllCols(groupBy) && Plans(items, having, main) && GroupsFit(groupBy, items, having, rows, main)
    requires GroupedStages(groupBy, items, having, main).Success?
    ensures Seqs.Map(Observed(items, main),
                     M.Run(GroupedStages(groupBy, items, having, main).value, Seqs.Map(AsJoined(main), rows), db))
            == Seqs.Map(SelectRow(items, main), KeptGroups(groupBy, items, having, rows, main))
  {
    GroupedDocs(groupBy, items, having, rows, main, db);
    KeptObserved(groupBy, items, having, rows, KeptGroups(groupBy, items, having, rows, main), main);
  }

  /** The same rows, as a multiset, when $group gives its groups in any other order. */
  lemma {:induction false} GroupedAnyOrder(groupBy: seq<Expr>, items: seq<SelectItem>, having: Option<Expr>, rows: seq<Row>, main: string,
                        db: M.Database, grouped: seq<Document>)
    requires AllCols(groupBy) && Plans(items, having, main) && GroupsFit(groupBy, items, having, rows, main)
    requires GroupedStages(groupBy, items, having, main).Success?
    requires multiset(grouped)
             == multiset(M.Run(GroupingStages(groupBy, PlanHaving(having, SelectedState(items, main).value, main).value.st, main),
                               Seqs.Map(AsJoined(main), rows), db))
    ensures multiset(Seqs.Map(Observed(items, main),
                              M.Run(HavingStages(PlanHaving(having, SelectedState(items, main).value, main).value).value, grouped, db)))
            == multiset(Seqs.Map(SelectRow(items, main), KeptGroups(groupBy, items, having, rows, main)))
  {
    var h := PlanHaving(having, SelectedState(items, main).value, main).value;
    var inOrder := M.Run(GroupingStages(groupBy, h.st, main), Seqs.Map(AsJoined(main), rows), db);
    GroupedCorrect(groupBy, items, having, rows, main, db);
    RunAppend(GroupingStages(groupBy, h.st, main), HavingStages(h).value, Seqs.Map(AsJoined(main), rows), db);
    HavingOrderFree(h, grouped, inOrder, db);
    Seqs.MapMultiset(Observed(items, main), M.Run(HavingStages(h).value, grouped, db), M.Run(HavingStages(h).value, inOrder, db));
  }

  /** A $match and a $project look at one document at a time. */
  lemma {:induction false} HavingOrderFree(h: HavingPlan, a: seq<Document>, b: seq<Document>, db: M.Database)
    requires HavingStages(h).Success? && multiset(a) == multiset(b)
    ensures multiset(M.Run(HavingStages(h).value, a, db)) == multiset(M.Run(HavingStages(h).value, b, db))
  {
    if h.pred.Some? {
      var f := W.TranslateWhere(h.pred.value).value;
      HavingRun(h, f, a, db);
      HavingRun(h, f, b, db);
      KeptOrderFree(f, h.st.hidden, a, b);
    }
  }

  function Kept(f: M.Filter, hidden: seq<string>, docs: seq<Document>): seq<Document> {
    var kept := Seqs.Filter(M.Matcher(f), docs);
    if hidden == [] then kept else Seqs.Map(M.Projector(DropSpec(hidden)), kept)
  }

  lemma {:induction false} HavingRun(h: HavingPlan, f: M.Filter, docs: seq<Document>, db: M.Database)
    requires h.pred.Some? && W.TranslateWhere(h.pred.value) == Success(f)
    ensures M.Run(HavingStages(h).value, docs, db) == Kept(f, h.st.hidden, docs)
  {
    ThenDrop(M.Match(f), h.st.hidden, docs, db);
  }

  lemma {:induction false} KeptOrderFree(f: M.Filter, hidden: seq<string>, a: seq<Document>, b: seq<Document>)
    requires multiset(a) == multiset(b)
    ensures multiset(Kept(f, hidden, a)) == multiset(Kept(f, hidden, b))
  {
    Seqs.FilterMultisetEq(M.Matcher(f), a, b);
    Seqs.MapMultiset(M.Projector(DropSpec(hidden)), Seqs.Filter(M.Matcher(f), a), Seqs.Filter(M.Matcher(f), b));
  }

  // ----- conservation -----

  function Members(): GroupOf -> nat {
    (g: GroupOf) => |g.members|
  }

  /** COUNT(*) over all groups, before HAVING, adds up to the number of rows grouped. */
  lemma {:induction false} CountsAddUp(groupBy: seq<Expr>, rows: seq<Row>, main: string)
    requires AllCols(groupBy)
    ensures Seqs.Sum(Seqs.Map(Members(), GroupsOf(groupBy, rows, main))) == |rows|
    ensures groupBy == [] ==> |GroupsOf(groupBy, rows, main)| == 1
  {
    if groupBy == [] {
      assert Seqs.Map(Members(), GroupsOf(groupBy, rows, main)) == [|rows|];
    } else {
      var key := KeyReader(groupBy, main);
      var ks := Seqs.Distinct(Seqs.Map(key, rows));
      forall row | row in rows
        ensures key(row) in ks
      {
        var i :| 0 <= i < |rows| && rows[i] == row;
        assert Seqs.Map(key, rows)[i] == key(row);
      }
      forall k | k in ks
        ensures Seqs.PartSize(key, rows)(k) == Members()(MakeGroup(groupBy, rows, main)(k))
      {
        Seqs.FilterCong(Seqs.HasImage(key, k), HasKey(groupBy, k, main), rows);
      }
      Seqs.MapMap(Members(), MakeGroup(groupBy, rows, main), Seqs.PartSize(key, rows), ks);
      Seqs.PartSizes(key, ks, rows);
    }
  }

  function FieldOf(n: string): Document -> Value {
    (d: Document) => NullOf(Get(d, n))
  }

  ghost function CountOf(main: string): GroupOf -> Value {
    (g: GroupOf) => Aggregates.SqlAgg(CountStar, g.members, main)
  }

  lemma {:induction false} SumOfCounts(gs: seq<GroupOf>, main: string)
    ensures M.SumNums(Seqs.Map(CountOf(main), gs)) == Seqs.Sum(Seqs.Map(Members(), gs)) as real
  {
    if gs != [] {
      SumOfCounts(gs[1..], main);
      assert Seqs.Map(CountOf(main), gs)[1..] == Seqs.Map(CountOf(main), gs[1..]);
      assert Seqs.Map(Members(), gs)[1..] == Seqs.Map(Members(), gs[1..]);
    }
  }

  /** In the documents: the COUNT(*) fields add up to the rows; without GROUP BY there is one document. */
  lemma {:induction false} CountsConserved(groupBy: seq<Expr>, st: GroupState, rows: seq<Row>, n: string, main: string, db: M.Database)
    requires AllCols(groupBy) && RowsFit(groupBy, st.outputs, rows, main) && n in st.outputs && st.outputs[n] == CountStar
    ensures var docs := M.Run(GroupingStages(groupBy, st, main), Seqs.Map(AsJoined(main), rows), db);
            M.SumNums(Seqs.Map(FieldOf(n), docs)) == |rows| as real && (groupBy == [] ==> |docs| == 1)
  {
    GroupingCorrect(groupBy, st, rows, main, db);
    CountFields(groupBy, st.outputs, GroupsOf(groupBy, rows, main), n, main);
    SumOfCounts(GroupsOf(groupBy, rows, main), main);
    CountsAddUp(groupBy, rows, main);
  }

  lemma {:induction false} CountFields(groupBy: seq<Expr>, outputs: map<string, AggSpec>, gs: seq<GroupOf>, n: string, main: string)
    requires AllCols(groupBy) && n in outputs && outputs[n] == CountStar && GoodName(n)
    ensures Seqs.Map(FieldOf(n), Seqs.Map(OutRows(groupBy, outputs, main), gs)) == Seqs.Map(CountOf(main), gs)
  {
    forall g | g in gs
      ensures CountOf(main)(g) == FieldOf(n)(OutRows(groupBy, outputs, main)(g))
    {
      OutRowReads(groupBy, outputs, g, main, n);
    }
    Seqs.MapMap(FieldOf(n), OutRows(groupBy, outputs, main), CountOf(main), gs);
  }

  // ----- the whole pipeline -----

  ghost predicate QueryRead(q: Query, items: seq<SelectItem>, groupBy: seq<Expr>, db: M.Database)
    requires AllCols(groupBy) && Plans(items, q.having, MainAlias(q.from))
  {
    var main := MainAlias(q.from);
    var rows := SqlFrom(q.from, db);
    FromFits(q.from, db)
    && (forall row :: row in rows ==> WhereFits(q.where_, row, main))
    && GroupsRead(groupBy, items, q.having, Seqs.Filter(WherePasses(q.where_, main), rows), main)
  }

  ghost predicate QueryFits(q: Query, items: seq<SelectItem>, groupBy: seq<Expr>, db: M.Database)
    requires AllCols(groupBy) && Plans(items, q.having, MainAlias(q.from))
  {
    QueryRead(q, items, groupBy, db) && NamesOutputs(q.having)
  }

  /** A query that groups, with neither DISTINCT nor * in its select list. */
  predicate Groups(q: Query, groupBy: seq<Expr>) {
    !q.distinct && !PlanItemsOf(q.exprs).hasStar
    && q.groupBy == (if groupBy == [] then None else Some(groupBy)) && AllCols(groupBy)
    && RowsPipeline(q).Success? && (groupBy != [] || PlanItemsOf(q.exprs).hasAgg)
    && Plans(PlanItemsOf(q.exprs).items, q.having, MainAlias(q.from))
  }

  /** SQL's groups: one per key of the joined rows that pass WHERE, kept where HAVING holds. */
  ghost function SqlGroups(q: Query, groupBy: seq<Expr>, db: M.Database): seq<GroupOf>
    requires Groups(q, groupBy)
  {
    var main := MainAlias(q.from);
    KeptGroups(groupBy, PlanItemsOf(q.exprs).items, q.having,
               Seqs.Filter(WherePasses(q.where_, main), SqlFrom(q.from, db)), main)
  }

  function MainDocs(q: Query, db: M.Database): seq<Document>
    requires Source.ExtractFromPlan(q.from).Success?
  {
    M.Collection(db, Source.ExtractFromPlan(q.from).value.main.collection)
  }

  /** FROM and WHERE leave the joined rows that pass. */
  lemma {:induction false} FromWhere(q: Query, joins: seq<M.Stage>, where_: seq<M.Stage>, db: M.Database)
    requires Source.ExtractFromPlan(q.from).Success? && FromFits(q.from, db)
    requires Source.JoinStages(Source.ExtractFromPlan(q.from).value.joins, Source.ExtractFromPlan(q.from).value.main.alias) == Success(joins)
    requires WhereStages(q.where_, Source.ExtractFromPlan(q.from).value.main.alias) == Success(where_)
    requires forall row :: row in SqlFrom(q.from, db) ==> WhereFits(q.where_, row, MainAlias(q.from))
    ensures Source.ExtractFromPlan(q.from).value.main.alias == MainAlias(q.from)
    ensures M.Run(joins + where_, MainDocs(q, db), db)
            == Seqs.Map(AsJoined(MainAlias(q.from)), Seqs.Filter(WherePasses(q.where_, MainAlias(q.from)), SqlFrom(q.from, db)))
  {
    JoinCorrect(q.from, db);
    RunAppend(joins, where_, MainDocs(q, db), db);
    WhereCorrect(q.where_, SqlFrom(q.from, db), MainAlias(q.from), db);
  }

  /** The groups that the pipeline keeps. */
  ghost function PipelineGroups(q: Query, groupBy: seq<Expr>, db: M.Database): seq<GroupOf>
    requires Groups(q, groupBy)
  {
    var main := MainAlias(q.from);
    ReadGroups(groupBy, PlanItemsOf(q.exprs).items, q.having,
               Seqs.Filter(WherePasses(q.where_, main), SqlFrom(q.from, db)), main)
  }

  /** FROM, WHERE, GROUP BY, HAVING: the pipeline run on the main collection gives the output rows of those. */
  lemma {:induction false} ReadDocs(q: Query, groupBy: seq<Expr>, db: M.Database)
    requires Groups(q, groupBy) && QueryRead(q, PlanItemsOf(q.exprs).items, groupBy, db)
    ensures var items, main := PlanItemsOf(q.exprs).items, MainAlias(q.from);
            M.Run(RowsPipeline(q).value, MainDocs(q, db), db)
            == Seqs.Map(OutRows(groupBy, SelectedState(items, main).value.outputs, main), PipelineGroups(q, groupBy, db))
  {
    var p := Source.ExtractFromPlan(q.from).value;
    var items, main := PlanItemsOf(q.exprs).items, p.main.alias;
    var joins := Source.JoinStages(p.joins, main).value;
    var where_ := WhereStages(q.where_, main).value;
    var grouped := GroupedStages(groupBy, items, q.having, main).value;
    FromWhere(q, joins, where_, db);
    assert RowsPipeline(q).value == joins + where_ + grouped;
    RunAppend(joins + where_, grouped, MainDocs(q, db), db);
    GroupedReads(groupBy, items, q.having, Seqs.Filter(WherePasses(q.where_, main), SqlFrom(q.from, db)), main, db);
  }

  /** Of SQL's groups, that is, if HAVING names columns without their tables. */
  lemma {:induction false} QueryDocs(q: Query, groupBy: seq<Expr>, db: M.Database)
    requires Groups(q, groupBy) && QueryFits(q, PlanItemsOf(q.exprs).items, groupBy, db)
    ensures var items, main := PlanItemsOf(q.exprs).items, MainAlias(q.from);
            M.Run(RowsPipeline(q).value, MainDocs(q, db), db)
            == Seqs.Map(OutRows(groupBy, SelectedState(items, main).value.outputs, main), SqlGroups(q, groupBy, db))
  {
    ReadDocs(q, groupBy, db);
    GroupsPlanned(q, groupBy);
    ReadIsKept(groupBy, PlanItemsOf(q.exprs).items, q.having,
               Seqs.Filter(WherePasses(q.where_, MainAlias(q.from)), SqlFrom(q.from, db)), MainAlias(q.from));
  }

  lemma {:induction false} GroupItemReads(q: Query, groupBy: seq<Expr>, item: SelectItem, g: GroupOf, db: M.Database)
    requires Groups(q, groupBy) && QueryFits(q, PlanItemsOf(q.exprs).items, groupBy, db)
    requires g in SqlGroups(q, groupBy, db) && item in PlanItemsOf(q.exprs).items
    ensures var items, main := PlanItemsOf(q.exprs).items, MainAlias(q.from);
            NullOf(Get(OutRow(groupBy, SelectedState(items, main).value.outputs, g, main), NameOf(item, main)))
            == SelectValue(item, g, main)
  {
    var items, main := PlanItemsOf(q.exprs).items, MainAlias(q.from);
    GroupsPlanned(q, groupBy);
    GroupsKeyed(groupBy, Seqs.Filter(WherePasses(q.where_, main), SqlFrom(q.from, db)), main);
    PlannedOutputs(groupBy, items, PlanHaving(q.having, SelectedState(items, main).value, main).value, q.having, main);
    ItemObserved(groupBy, items, item, g, main);
  }

  lemma {:induction false} GroupsObserved(q: Query, groupBy: seq<Expr>, gs: seq<GroupOf>, db: M.Database)
    requires Groups(q, groupBy) && QueryFits(q, PlanItemsOf(q.exprs).items, groupBy, db)
    requires forall g :: g in gs ==> g in SqlGroups(q, groupBy, db)
    ensures var items, main := PlanItemsOf(q.exprs).items, MainAlias(q.from);
            Seqs.Map(Observed(items, main), Seqs.Map(OutRows(groupBy, SelectedState(items, main).value.outputs, main), gs))
            == Seqs.Map(SelectRow(items, main), gs)
  {
    var items, main := PlanItemsOf(q.exprs).items, MainAlias(q.from);
    GroupsPlanned(q, groupBy);
    KeptObserved(groupBy, items, q.having, Seqs.Filter(WherePasses(q.where_, main), SqlFrom(q.from, db)), gs, main);
  }

  /** So the client sees SQL's rows. */
  lemma {:induction false} QueryCorrect(q: Query, groupBy: seq<Expr>, db: M.Database)
    requires Groups(q, groupBy) && QueryFits(q, PlanItemsOf(q.exprs).items, groupBy, db)
    ensures var items, main := PlanItemsOf(q.exprs).items, MainAlias(q.from);
            Seqs.Map(Observed(items, main), M.Run(RowsPipeline(q).value, MainDocs(q, db), db))
            == Seqs.Map(SelectRow(items, main), SqlGroups(q, groupBy, db))
  {
    QueryDocs(q, groupBy, db);
    GroupsObserved(q, groupBy, SqlGroups(q, groupBy, db), db);
  }

  lemma {:induction false} MainIsMain(t: Source.TableExpr)
    requires Source.ExtractFromPlan(t).Success?
    ensures Source.ExtractFromPlan(t).value.main.alias == MainAlias(t)
    decreases t
  {
    if t.Join? && t.kind != Source.RightJoin {
      MainIsMain(t.left);
    }
  }

  lemma {:induction false} GroupsPlanned(q: Query, groupBy: seq<Expr>)
    requires Groups(q, groupBy)
    ensures GroupedStages(groupBy, PlanItemsOf(q.exprs).items, q.having, MainAlias(q.from)).Success?
  {
    MainIsMain(q.from);
  }
}
