/** SELECT DISTINCT COUNT(*) AS c FROM t GROUP BY a, where two groups count the same. */
module DistinctExample {
  import opened Wrappers
  import opened Bson
  import opened Sql
  import opened JoinTheorem
  import opened Select
  import HavingTheorem
  import opened GroupTheorem
  import GroupedQuery
  import opened QueryTheorem
  import opened Render
  import RenderTheorem
  import Departures
  import M = Mongo
  import Source
  import Seqs

  /** Without DISTINCT, as the theorems take it. */
  function Statement(): Query {
    Query(false, [Aliased(Agg(CountStar), "c")], Source.Table("t", None), None, Some(Columns()), None, [], None)
  }

  function Columns(): seq<Expr> {
    [Col("", "a")]
  }

  function ListItems(): seq<SelectItem> {
    [AggItem(CountStar, "c")]
  }

  function Outputs(): GroupState {
    GroupState(map["c" := CountStar], map[CountStar := "c"], [])
  }

  function Record(n: real): Document {
    map["a" := Num(n)]
  }

  function Tables(): M.Database {
    map["t" := [Record(1.0), Record(2.0)]]
  }

  function RowOf(n: real): Row {
    map["t" := Some(Record(n))]
  }

  lemma {:induction false} Planned()
    ensures PlanItemsOf(Statement().exprs) == Items(ListItems(), false, true, false)
  {
    var es := Statement().exprs;
    assert es[..0] == [] && PlanItemsOf([]) == Items([], false, false, false);
  }

  lemma {:induction false} Selected()
    ensures SelectedState(ListItems(), "t") == Success(Outputs())
  {
    assert ListItems()[..0] == [] && SelectedState([], "t") == Success(GroupState(map[], map[], []));
  }

  lemma {:induction false} Grouped()
    ensures Groups(Statement(), Columns())
    ensures GroupedStages(Columns(), ListItems(), None, "t").Success?
  {
    Planned();
    Selected();
    assert AccumulatorFor(CountStar, "t").Success?;
    assert Source.JoinStages([], "t") == Success([]);
  }

  lemma {:induction false} Names()
    ensures GoodName("t") && GoodName("a") && GoodName("c") && HavingTheorem.NotHidden("a") && HavingTheorem.NotHidden("c")
    ensures "c" != "a" && "c" != "_id"
  {
    assert "t"[0] == 't' && "a"[0] == 'a' && "c"[0] == 'c';
    HavingTheorem.VisibleName("a");
    HavingTheorem.VisibleName("c");
  }

  lemma {:induction false} RowsAre()
    ensures SqlFrom(Statement().from, Tables()) == [RowOf(1.0), RowOf(2.0)]
  {
    var coll := M.Collection(Tables(), "t");
    assert coll[1..] == [Record(2.0)] && coll[1..][1..] == [];
  }

  lemma {:induction false} RowFits(n: real)
    ensures KeyPresent(Columns(), RowOf(n), "t") && WhereFits(None, RowOf(n), "t")
    ensures KeyOfRow(Columns(), RowOf(n), "t") == [Num(n)]
  {
    Names();
    var row := RowOf(n);
    assert DocOf(row, "t") == Record(n);
    GetName(Record(n), "a");
    assert EnvOf(row, "t").col("", "a") == Num(n);
    assert ColumnPresent(Columns()[0], row, "t");
    assert Columns()[..0] == [] && KeyOfRow([], row, "t") == [];
  }

  lemma {:induction false} NamesFit()
    ensures GoodGrouping(Columns(), ListItems(), "t")
  {
    Names();
    assert HavingTheorem.NameOf(ListItems()[0], "t") == "c";
    assert ListItems()[0].AggItem?;
  }

  function Rows(): seq<Row> {
    [RowOf(1.0), RowOf(2.0)]
  }

  lemma {:induction false} PassingAre()
    ensures Seqs.Filter(WherePasses(None, "t"), SqlFrom(Statement().from, Tables())) == Rows()
  {
    RowsAre();
    Seqs.FilterAll(WherePasses(None, "t"), Rows());
  }

  lemma {:induction false} GroupsHold()
    ensures Plans(ListItems(), None, "t") && GroupsFit(Columns(), ListItems(), None, Rows(), "t")
  {
    Selected();
    NamesFit();
    RowFits(1.0);
    RowFits(2.0);
  }

  lemma {:induction false} FromHolds()
    ensures FromFits(Statement().from, Tables())
    ensures forall row :: row in SqlFrom(Statement().from, Tables()) ==> WhereFits(None, row, "t")
  {
    Names();
    RowsAre();
    RowFits(1.0);
    RowFits(2.0);
  }

  lemma {:induction false} Fitting()
    ensures Plans(ListItems(), None, "t") && QueryFits(Statement(), ListItems(), Columns(), Tables())
  {
    FromHolds();
    PassingAre();
    GroupsHold();
  }

  lemma {:induction false} GroupsAre()
    ensures Groups(Statement(), Columns())
    ensures SqlGroups(Statement(), Columns(), Tables()) == [GroupOf([Num(1.0)], [RowOf(1.0)]), GroupOf([Num(2.0)], [RowOf(2.0)])]
  {
    Grouped();
    Planned();
    Selected();
    PassingAre();
    TwoGroups(RowOf(1.0), RowOf(2.0));
    Seqs.FilterAll(GroupedQuery.HavingHolds(None, Columns(), Outputs().outputs, "t"), GroupsOf(Columns(), Rows(), "t"));
  }

  lemma {:induction false} TwoKeys(k: Row -> seq<Value>, a: Row, b: Row)
    requires k(a) != k(b)
    ensures Seqs.Map(k, [a, b]) == [k(a), k(b)] && Seqs.Distinct([k(a), k(b)]) == [k(a), k(b)]
  {
    assert [a, b][1..] == [b] && [b][1..] == [];
    Seqs.DistinctOfNoDup([k(a), k(b)]);
  }

  lemma {:induction false} TwoGroups(a: Row, b: Row)
    requires a == RowOf(1.0) && b == RowOf(2.0)
    ensures GroupsOf(Columns(), [a, b], "t") == [GroupOf([Num(1.0)], [a]), GroupOf([Num(2.0)], [b])]
  {
    RowFits(1.0);
    RowFits(2.0);
    var make := MakeGroup(Columns(), [a, b], "t");
    TwoKeys(KeyReader(Columns(), "t"), a, b);
    assert [a, b][1..] == [b] && [b][1..] == [];
    assert Seqs.Filter(HasKey(Columns(), [Num(1.0)], "t"), [a, b]) == [a];
    assert Seqs.Filter(HasKey(Columns(), [Num(2.0)], "t"), [a, b]) == [b];
    var keys: seq<seq<Value>> := [[Num(1.0)], [Num(2.0)]];
    assert keys[1..] == [[Num(2.0)]] && keys[1..][1..] == [];
    assert Seqs.Map(make, keys) == [make(keys[0]), make(keys[1])];
  }

  lemma {:induction false} TwoShown(print_: Expr -> string)
    ensures BuildAggregate(Statement(), print_).Success?
    ensures Seqs.Map(Observed(ListItems(), "t"), StatementDocs(BuildAggregate(Statement(), print_).value, Tables()))
            == [[Num(1.0)], [Num(1.0)]]
  {
    Planned();
    Fitting();
    GroupsAre();
    Built(print_);
    RenderTheorem.GroupedStatementCorrect(Statement(), Columns(), print_, Tables());
    RowsSelected();
  }

  /** Both groups count one row: two equal rows are returned where SQL returns one. */
  lemma {:induction false} DuplicateReturned(print_: Expr -> string)
    ensures var built := BuildAggregate(Statement().(distinct := true), print_);
            built.Success?
            && var shown := Seqs.Map(Observed(ListItems(), "t"), StatementDocs(built.value, Tables()));
               shown == [[Num(1.0)], [Num(1.0)]] && Seqs.Distinct(shown) == [[Num(1.0)]]
  {
    TwoShown(print_);
    Departures.DistinctIgnored(Statement(), true, print_);
    Seqs.DistinctSame([[Num(1.0)], [Num(1.0)]], [Num(1.0)]);
  }

  lemma {:induction false} Built(print_: Expr -> string)
    ensures BuildAggregate(Statement(), print_).Success? && RenderTheorem.OrdersByItem(Statement(), "t")
  {
    Grouped();
    Planned();
  }

  lemma {:induction false} RowsSelected()
    ensures Seqs.Map(SelectRow(ListItems(), "t"), [GroupOf([Num(1.0)], [RowOf(1.0)]), GroupOf([Num(2.0)], [RowOf(2.0)])])
            == [[Num(1.0)], [Num(1.0)]]
  {
    var g, h := GroupOf([Num(1.0)], [RowOf(1.0)]), GroupOf([Num(2.0)], [RowOf(2.0)]);
    assert [g, h][1..] == [h] && [h][1..] == [];
    assert ListItems()[1..] == [];
    assert SelectValue(ListItems()[0], g, "t") == Num(1.0) == SelectValue(ListItems()[0], h, "t");
    assert SelectRow(ListItems(), "t")(g) == [Num(1.0)] == SelectRow(ListItems(), "t")(h);
  }
}
