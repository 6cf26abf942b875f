/** A statement that meets every condition of the theorem about grouped statements. */
module GroupedExample {
  import opened Wrappers
  import opened Bson
  import opened Sql
  import opened Compiler
  import opened JoinTheorem
  import opened Select
  import opened HavingTheorem
  import Aggregates
  import opened GroupTheorem
  import WhereTheorem
  import ValueTheorem
  import opened GroupedQuery
  import opened QueryTheorem
  import opened Render
  import opened RenderTheorem
  import opened Listing
  import GroupedResults
  import M = Mongo
  import W = Where
  import Source
  import Seqs

  /** SELECT dept, COUNT(*) AS c FROM emp GROUP BY dept HAVING COUNT(dept) > 1 ORDER BY c DESC */
  function Statement(): Query {
    Query(false, [Aliased(Col("", "dept"), ""), Aliased(Agg(CountStar), "c")], Source.Table("emp", None), None,
          Some([Col("", "dept")]), Some(Having()), [Order(Col("", "c"), true)], None)
  }

  function Having(): Expr {
    Compare(Gt, Agg(Counted()), Lit(IntVal(1, "1")))
  }

  function Counted(): AggSpec {
    AggOf(Count, false, Col("", "dept"))
  }

  function Columns(): seq<Expr> {
    [Col("", "dept")]
  }

  function ListItems(): seq<SelectItem> {
    [FieldItem("", "dept", ""), AggItem(CountStar, "c")]
  }

  function Outputs(): GroupState {
    GroupState(map["c" := CountStar], map[CountStar := "c"], [])
  }

  lemma {:induction false} Planned()
    ensures PlanItemsOf(Statement().exprs) == Items(ListItems(), false, true, false)
  {
    var es := Statement().exprs;
    assert es[..1][..0] == [] && es[..1] == [es[0]];
    assert PlanItemsOf([]) == Items([], false, false, false);
    assert PlanItemsOf(es[..1]) == Items([FieldItem("", "dept", "")], false, false, false);
  }

  lemma {:induction false} Selected()
    ensures SelectedState(ListItems(), "emp") == Success(Outputs())
  {
    var items := ListItems();
    assert items[..1][..0] == [] && items[..1] == [items[0]];
    assert SelectedState([], "emp") == Success(GroupState(map[], map[], []));
    assert SelectedState(items[..1], "emp") == Success(GroupState(map[], map[], []));
  }

  /** HAVING counts departments in a field of its own. */
  function WithHidden(): Rewritten<Expr> {
    Rewritten(Compare(Gt, Col("", "__hv_0"), Lit(IntVal(1, "1"))),
              GroupState(map["c" := CountStar, "__hv_0" := Counted()], map[CountStar := "c", Counted() := "__hv_0"], ["__hv_0"]))
  }

  lemma {:induction false} HavingRewritten()
    ensures RewriteHaving(Having(), Outputs(), "emp") == Success(WithHidden())
  {
    assert HiddenName(0) == "__hv_0";
    var st := AddHidden(Outputs(), Counted());
    assert st == WithHidden().st;
    assert RewriteHaving(Agg(Counted()), Outputs(), "emp") == Success(Rewritten(Col("", "__hv_0"), st));
    assert RewriteHaving(Lit(IntVal(1, "1")), st, "emp") == Success(Rewritten(Lit(IntVal(1, "1")), st));
  }

  lemma {:induction false} NamesFit()
    ensures AllCols(Columns()) && GoodGrouping(Columns(), ListItems(), "emp")
  {
    var items, groupBy := ListItems(), Columns();
    VisibleName("dept");
    VisibleName("c");
    assert NameOf(items[0], "emp") == "dept" && NameOf(items[1], "emp") == "c";
    assert "dept"[0] == 'd' && "c"[0] == 'c';
    assert groupBy[0].name == "dept" && SameSource("", groupBy[0].qual, "emp");
    assert GoodItem(items[0], groupBy, "emp");
    assert items[1].AggItem?;
  }

  /** Every employee has a department, if only NULL. */
  predicate Staffed(db: M.Database) {
    forall d :: d in M.Collection(db, "emp") ==> "dept" in d && IsScalar(d["dept"])
  }

  lemma {:induction false} RowFits(d: Document)
    requires "dept" in d && IsScalar(d["dept"])
    ensures KeyPresent(Columns(), map["emp" := Some(d)], "emp")
  {
    var row: Row := map["emp" := Some(d)];
    assert "emp"[0] == 'e' && "dept"[0] == 'd' && GoodName("emp") && GoodName("dept");
    assert DocOf(row, "emp") == d;
    GetName(d, "dept");
    assert ColumnPresent(Columns()[0], row, "emp");
  }

  lemma {:induction false} RowsAre(db: M.Database)
    requires Staffed(db)
    ensures forall row :: row in SqlFrom(Statement().from, db) ==> KeyPresent(Columns(), row, "emp") && Employee(row)
  {
    var coll := M.Collection(db, "emp");
    var rows := Seqs.Map(With(map[], "emp"), coll);
    forall row | row in rows
      ensures KeyPresent(Columns(), row, "emp") && Employee(row)
    {
      var i :| 0 <= i < |rows| && rows[i] == row;
      RowFits(coll[i]);
      assert row == map["emp" := Some(coll[i])];
    }
  }

  lemma {:induction false} HavingTranslates()
    ensures W.TranslateWhere(WithHidden().e) == Success(M.Field("__hv_0", M.TGt(Num(1.0))))
  {
    assert StaticValue(Lit(IntVal(1, "1"))) == Success(GInt(1));
    assert ToBson(GInt(1)) == Num(1.0);
  }

  lemma {:induction false} Counts()
    ensures AllAccumulate(WithHidden().st.outputs, "emp")
  {
    assert AccumulatorFor(CountStar, "emp").Success?;
    assert AccumulatorFor(Counted(), "emp").Success?;
  }

  lemma {:induction false} StagesExist()
    ensures GroupedStages(Columns(), ListItems(), Some(Having()), "emp").Success?
    ensures Plans(ListItems(), Some(Having()), "emp")
  {
    Selected();
    HavingRewritten();
    HavingTranslates();
    Counts();
  }

  lemma {:induction false} Grouped()
    ensures Groups(Statement(), Columns())
  {
    Planned();
    StagesExist();
    assert Source.JoinStages([], "emp") == Success([]);
  }

  // ----- its groups -----

  /** A row of the one table. */
  predicate Employee(row: Row) {
    row.Keys == {"emp"} && row["emp"].Some? && "dept" in row["emp"].value && IsScalar(row["emp"].value["dept"])
  }

  lemma {:induction false} CountSafe(members: seq<Row>)
    requires forall row :: row in members ==> Employee(row)
    ensures GroupSafe(WithHidden().st.outputs, members, "emp")
  {
    var arg := Col("", "dept");
    assert "emp"[0] == 'e' && "dept"[0] == 'd' && GoodName("emp") && GoodName("dept");
    forall row | row in members
      ensures Aggregates.ArgSafe(arg, row, "emp") && IsScalar(Aggregates.ArgReader(arg, "emp")(row))
    {
      assert Cols(arg) == {("", "dept")};
    }
    var vs := Aggregates.ArgsOf(arg, members, "emp");
    forall v | v in vs
      ensures IsScalar(v)
    {
      var i :| 0 <= i < |vs| && vs[i] == v;
      assert members[i] in members;
    }
  }

  lemma {:induction false} HavingColumn(g: GroupOf)
    requires |g.key| == 1 && forall row :: row in g.members ==> Employee(row)
    ensures var env := RowEnv(OutRow(Columns(), WithHidden().st.outputs, g, "emp"));
            env.col("", "__hv_0").Num?
  {
    CountSafe(g.members);
    assert "__hv_0"[0] == '_' && GoodName("__hv_0");
    OutRowReads(Columns(), WithHidden().st.outputs, g, "emp", "__hv_0");
  }

  lemma {:induction false} CountTested(env: Env, d: Document)
    requires env.col("", "__hv_0").Num?
    ensures WhereTheorem.Fits(WithHidden().e, true, env, d)
  {
    assert Eval(Col("", "__hv_0"), env) == Ok(env.col("", "__hv_0"));
    assert Eval(Lit(IntVal(1, "1")), env) == Ok(Num(1.0));
    assert Comparison(Gt, Ok(env.col("", "__hv_0")), Ok(Num(1.0))).Ok?;
  }

  lemma {:induction false} CountPlain()
    ensures ValueTheorem.Plain(WithHidden().e) && Cols(WithHidden().e) == {("", "__hv_0")} && Cols(Having()) == {}
  {
    assert "__hv_0"[0] == '_' && ValueTheorem.PlainColumn("", "__hv_0");
  }

  lemma {:induction false} HavingFitsGroup(g: GroupOf)
    requires |g.key| == 1 && forall row :: row in g.members ==> Employee(row)
    ensures HavingFits(Having(), Columns(), Outputs(), g, "emp")
  {
    var d := OutRow(Columns(), WithHidden().st.outputs, g, "emp");
    HavingRewritten();
    HavingColumn(g);
    CountPlain();
    CountTested(RowEnv(d), d);
  }

  lemma {:induction false} MembersAre(rows: seq<Row>)
    requires forall row :: row in rows ==> Employee(row)
    ensures forall g, row :: g in GroupsOf(Columns(), rows, "emp") && row in g.members ==> Employee(row)
  {
    var gs := GroupsOf(Columns(), rows, "emp");
    forall g, row | g in gs && row in g.members
      ensures Employee(row)
    {
      var i :| 0 <= i < |gs| && gs[i] == g;
      assert row in rows;
    }
  }

  lemma {:induction false} GroupsAre(rows: seq<Row>)
    requires forall row :: row in rows ==> Employee(row) && KeyPresent(Columns(), row, "emp")
    ensures Plans(ListItems(), Some(Having()), "emp") && GroupsFit(Columns(), ListItems(), Some(Having()), rows, "emp")
  {
    StagesExist();
    Selected();
    HavingRewritten();
    NamesFit();
    GroupsSafe(rows);
    CountPlain();
  }

  lemma {:induction false} GroupsSafe(rows: seq<Row>)
    requires forall row :: row in rows ==> Employee(row)
    ensures RewriteHaving(Having(), Outputs(), "emp").Success?
    ensures forall g :: g in GroupsOf(Columns(), rows, "emp") ==>
                          GroupSafe(WithHidden().st.outputs, g.members, "emp") && HavingFits(Having(), Columns(), Outputs(), g, "emp")
  {
    HavingRewritten();
    MembersAre(rows);
    GroupsKeyed(Columns(), rows, "emp");
    forall g | g in GroupsOf(Columns(), rows, "emp")
      ensures GroupSafe(WithHidden().st.outputs, g.members, "emp")
      ensures HavingFits(Having(), Columns(), Outputs(), g, "emp")
    {
      CountSafe(g.members);
      HavingFitsGroup(g);
    }
  }

  lemma {:induction false} Fitting(db: M.Database)
    requires Staffed(db)
    ensures Plans(ListItems(), Some(Having()), "emp") && QueryFits(Statement(), ListItems(), Columns(), db)
  {
    RowsAre(db);
    GroupsAre(Seqs.Filter(WherePasses(None, "emp"), SqlFrom(Statement().from, db)));
  }

  lemma {:induction false} Ordered(print_: Expr -> string)
    ensures OrdersByItem(Statement(), "emp") && BuildAggregate(Statement(), print_).Success?
  {
    Planned();
    Grouped();
    var orders, items := Statement().orderBy, ListItems();
    assert NameOf(items[0], "emp") == "dept" && NameOf(items[1], "emp") == "c";
    assert ItemOrdered(Col("", "c"), items[1..], "emp").Some?;
    assert orders[..0] == [] && OrderKeys([], items, "emp") == Success([]);
  }

  lemma {:induction false} Named()
    ensures ResultNames(Statement().exprs, "emp") == ["dept", "c"]
    ensures GroupedResults.OrdersByColumnOf(Statement(), "emp")
  {
    var es := Statement().exprs;
    assert es[1..] == [es[1]] && es[1..][1..] == [] && Listed([]) == [];
    assert Listed(es[1..]) == [es[1]] && Listed(es) == es;
    assert ResultName(es[0], "emp") == "dept" && ResultName(es[1], "emp") == "c" && es[1] in es;
  }

  lemma {:induction false} Conditions(db: M.Database, print_: Expr -> string)
    requires Staffed(db)
    ensures Groups(Statement(), Columns()) && QueryFits(Statement(), PlanItemsOf(Statement().exprs).items, Columns(), db)
    ensures BuildAggregate(Statement(), print_).Success? && GroupedResults.OrdersByColumnOf(Statement(), MainAlias(Statement().from))
    ensures ResultNames(Statement().exprs, MainAlias(Statement().from)) == ["dept", "c"]
  {
    Planned();
    Grouped();
    Fitting(db);
    Ordered(print_);
    Named();
  }

  /** On every database where employees have departments, the statement returns SQL's rows. */
  lemma {:induction false} StatementCorrect(db: M.Database, print_: Expr -> string)
    requires Staffed(db)
    ensures Groups(Statement(), Columns()) && BuildAggregate(Statement(), print_).Success?
    ensures Seqs.Map(ShownAs(["dept", "c"]), StatementDocs(BuildAggregate(Statement(), print_).value, db))
            == GroupedResults.GroupedRows(Statement(), Columns(), db)
  {
    Conditions(db, print_);
    GroupedResults.GroupedResult(Statement(), Columns(), print_, db);
  }
}
