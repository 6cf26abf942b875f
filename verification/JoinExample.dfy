/** A join that meets every condition of the theorem about statements without grouping. */
module JoinExample {
  import opened Wrappers
  import opened Bson
  import opened Sql
  import Compiler
  import opened JoinTheorem
  import opened Select
  import ValueTheorem
  import QueryTheorem
  import opened Render
  import opened RenderTheorem
  import opened Listing
  import RowResults
  import opened Source
  import M = Mongo
  import Seqs

  /** SELECT e.name, d.title FROM emp e LEFT JOIN dept d ON e.did = d.id ORDER BY e.name */
  function Statement(): Query {
    Query(false, [Aliased(Col("e", "name"), ""), Aliased(Col("d", "title"), "")], From(), None, None, None,
          [Order(Col("e", "name"), false)], None)
  }

  function From(): TableExpr {
    Join(LeftJoin, Table("emp", Some("e")), Table("dept", Some("d")), Some(On()))
  }

  function On(): Expr {
    Compare(Eq, Col("e", "did"), Col("d", "id"))
  }

  function ListItems(): seq<SelectItem> {
    [FieldItem("e", "name", ""), FieldItem("d", "title", "")]
  }

  function TheJoin(): JoinPlan {
    EquiJoin(SourceRef("dept", "d"), FieldRef("e", "did"), FieldRef("d", "id"), true)
  }

  function TheFinal(): Final {
    Final(map["_id" := M.Exclude, "name" := M.Include, "title" := M.Computed(Compiler.Ref("d.title"))], ["name", "title"], false)
  }

  lemma {:induction false} Planned()
    ensures PlanItemsOf(Statement().exprs) == Items(ListItems(), false, false, false)
  {
    var es := Statement().exprs;
    assert es[..1][..0] == [] && es[..1] == [es[0]];
    assert PlanItemsOf([]) == Items([], false, false, false);
    assert PlanItemsOf(es[..1]) == Items([FieldItem("e", "name", "")], false, false, false);
  }

  lemma {:induction false} JoinPlanned()
    ensures ExtractFromPlan(From()) == Success(FromPlan(SourceRef("emp", "e"), [TheJoin()]))
    ensures JoinStages([TheJoin()], "e").Success?
  {
    assert ExtractFromPlan(Table("emp", Some("e"))) == Success(FromPlan(SourceRef("emp", "e"), []));
    assert JoinFields(On(), "e", "d") == Success((FieldRef("e", "did"), FieldRef("d", "id")));
    assert PlanJoin(Some(On()), "e", SourceRef("dept", "d"), true) == Success(TheJoin());
    assert [] + [TheJoin()] == [TheJoin()] && [TheJoin()][..0] == [];
    assert JoinStages([], "e") == Success([]);
  }

  lemma {:induction false} Distinct()
    ensures "name" != "_id" && "title" != "_id" && "name" != "title"
  {
    assert "name"[0] == 'n' && "title"[0] == 't' && "_id"[0] == '_';
  }

  function FirstColumn(): Final {
    Final(map["_id" := M.Exclude, "name" := M.Include], ["name"], false)
  }

  lemma {:induction false} FirstProjected(print_: Expr -> string)
    ensures FinalOf([FieldItem("e", "name", "")], "e", print_) == Success(FirstColumn())
  {
    Names();
    Distinct();
    FinalOfOne(FieldItem("e", "name", ""), "e", print_);
    assert Compiler.PathOf("e", "name", "e") == "name" && Leaf("name") == "name";
    assert FieldName("name", "", {"_id"}) == "name";
    var start: map<string, M.Projected> := map["_id" := M.Exclude];
    assert start.Keys == {"_id"};
    assert [] + ["name"] == ["name"];
  }

  lemma {:induction false} SecondName()
    ensures FieldName(Compiler.PathOf("d", "title", "e"), "", FirstColumn().spec.Keys) == "title"
    ensures Compiler.PathOf("d", "title", "e") == "d.title" != "title"
  {
    Names();
    Distinct();
    assert FirstColumn().spec.Keys == {"_id", "name"};
    JoinedName("d", "title", "e", FirstColumn().spec.Keys);
    assert "d" + "." + "title" == "d.title";
  }

  lemma {:induction false} SecondProjected(print_: Expr -> string)
    ensures FinalStep(FirstColumn(), FieldItem("d", "title", ""), "e", print_) == Success(TheFinal())
  {
    SecondName();
    Distinct();
    assert ["name"] + ["title"] == ["name", "title"];
  }

  lemma {:induction false} Projected(print_: Expr -> string)
    ensures FinalOf(ListItems(), "e", print_) == Success(TheFinal())
  {
    FirstProjected(print_);
    SecondProjected(print_);
    FinalOfTwo(FieldItem("e", "name", ""), FieldItem("d", "title", ""), "e", print_);
  }

  lemma {:induction false} Built(print_: Expr -> string)
    ensures BuildAggregate(Statement(), print_).Success? && Plainly(Statement())
  {
    Planned();
    JoinPlanned();
    Projected(print_);
    assert Statement().orderBy[..0] == [] && OrderKeys([], ListItems(), "e") == Success([]);
  }

  // ----- the tables -----

  predicate Employee(x: Document) {
    "d" !in x && Scalar(x, "name") && Scalar(x, "did")
  }

  /** Departments have an id, which is not NULL. */
  predicate Department(y: Document) {
    Scalar(y, "title") && "id" in y && IsScalar(y["id"]) && y["id"] != Null
  }

  predicate Scalar(x: Document, n: string) {
    n in x ==> IsScalar(NullOf(x[n]))
  }

  predicate Tables(db: M.Database) {
    (forall x :: x in M.Collection(db, "emp") ==> Employee(x)) && (forall y :: y in M.Collection(db, "dept") ==> Department(y))
  }

  lemma {:induction false} Names()
    ensures GoodName("e") && GoodName("d") && GoodName("name") && GoodName("title") && GoodName("did") && GoodName("id")
  {
    assert "e"[0] == 'e' && "d"[0] == 'd' && "name"[0] == 'n' && "title"[0] == 't' && "did"[0] == 'd' && "id"[0] == 'i';
  }

  lemma {:induction false} StepHolds(x: Document, coll: seq<Document>)
    requires Employee(x) && forall y :: y in coll ==> Department(y)
    ensures StepFits(On(), "d", coll, map["e" := Some(x)], "e")
  {
    var row: Row := map["e" := Some(x)];
    Names();
    assert JoinFields(On(), "e", "d") == Success((FieldRef("e", "did"), FieldRef("d", "id")));
    forall y | y in coll
      ensures EquiPair(ColumnOf(row, "e", "did"), NullOf(Get(y, "id")))
    {
      GetName(y, "id");
    }
  }

  /** A joined row of the two tables. */
  predicate Joined(row: Row) {
    row.Keys == {"e", "d"} && row["e"].Some? && Employee(row["e"].value) && (row["d"].Some? ==> Department(row["d"].value))
  }

  lemma {:induction false} JoinedFrom(x: Document, coll: seq<Document>)
    requires Employee(x) && forall y :: y in coll ==> Department(y)
    ensures forall row :: row in JoinRow(On(), "d", coll, true, "e")(map["e" := Some(x)]) ==> Joined(row)
  {
    var row: Row := map["e" := Some(x)];
    var found := Seqs.Filter(Joins(On(), row, "d", "e"), coll);
    var rows := RowsFor(row, "d", true, found);
    forall r | r in rows
      ensures Joined(r)
    {
      if found != [] {
        var i :| 0 <= i < |found| && rows[i] == r;
        assert found[i] in coll;
        assert r == row["d" := Some(found[i])];
      }
    }
  }

  predicate Main(row: Row) {
    row.Keys == {"e"} && row["e"].Some? && Employee(row["e"].value)
  }

  lemma {:induction false} AllJoined(rows: seq<Row>, coll: seq<Document>)
    requires forall row :: row in rows ==> Main(row)
    requires forall y :: y in coll ==> Department(y)
    ensures forall row :: row in Seqs.FlatMap(JoinRow(On(), "d", coll, true, "e"), rows) ==> Joined(row)
  {
    if rows != [] {
      assert rows[0] in rows && rows[0] == map["e" := Some(rows[0]["e"].value)];
      JoinedFrom(rows[0]["e"].value, coll);
      AllJoined(rows[1..], coll);
    }
  }

  lemma {:induction false} MainRowsAre(db: M.Database)
    requires Tables(db)
    ensures forall row :: row in SqlFrom(Table("emp", Some("e")), db) ==> Main(row)
  {
    var coll := M.Collection(db, "emp");
    var rows := Seqs.Map(With(map[], "e"), coll);
    forall row | row in rows
      ensures Main(row)
    {
      var i :| 0 <= i < |rows| && rows[i] == row;
      assert row == map["e" := Some(coll[i])];
    }
  }

  lemma {:induction false} FromHolds(db: M.Database)
    requires Tables(db)
    ensures FromFits(From(), db) && forall row :: row in SqlFrom(From(), db) ==> Joined(row)
  {
    var kept := Table("emp", Some("e"));
    Names();
    MainRowsAre(db);
    var rows: seq<Row> := SqlFrom(kept, db);
    forall row: Row | row in rows
      ensures StepFits(On(), "d", M.Collection(db, "dept"), row, "e")
    {
      assert row == map["e" := Some(row["e"].value)];
      StepHolds(row["e"].value, M.Collection(db, "dept"));
    }
    AllJoined(SqlFrom(kept, db), M.Collection(db, "dept"));
  }

  lemma {:induction false} ColumnsFit(row: Row)
    requires Joined(row)
    ensures WellFormed(row, "e") && GoodName("e")
    ensures Readable(row, "e", "e", "name") && ItemsFit(ListItems(), ["name", "title"], row, "e")
  {
    Names();
    assert ValueTheorem.PlainColumn("e", "name") && ValueTheorem.PlainColumn("d", "title");
  }

  lemma {:induction false} Fitting(db: M.Database)
    requires Tables(db)
    ensures PlainFits(Statement(), TheFinal(), db)
  {
    Planned();
    FromHolds(db);
    Names();
    forall row | row in SqlFrom(From(), db)
      ensures QueryTheorem.WhereFits(None, row, "e") && Readable(row, "e", "e", "name") && ItemsFit(ListItems(), ["name", "title"], row, "e")
    {
      ColumnsFit(row);
    }
    assert GoodNames(["name", "title"]) by { assert "name" in ["name", "title"]; }
  }

  lemma {:induction false} Named(print_: Expr -> string)
    ensures OutputNames(Listed(Statement().exprs), "e", print_) == ["name", "title"]
  {
    var xs := Statement().exprs;
    Planned();
    Projected(print_);
    PlansListed(xs);
    assert xs[1..] == [xs[1]] && xs[1..][1..] == [] && Listed([]) == [] && Listed(xs[1..]) == [xs[1]] && Listed(xs) == xs;
    Names();
    assert NamedPlainly(xs[0]) && NamedPlainly(xs[1]);
    ProjectionNames(ListItems(), xs, "e", print_);
  }

  /** On every such database the join returns SQL's rows. */
  lemma {:induction false} StatementCorrect(db: M.Database, print_: Expr -> string)
    requires Tables(db)
    ensures BuildAggregate(Statement(), print_).Success?
    ensures Seqs.Map(ShownAs(["name", "title"]), StatementDocs(BuildAggregate(Statement(), print_).value, db))
            == RowResults.ResultRows(Statement(), db)
  {
    Built(print_);
    SelectedPlainly(print_);
    Fitting(db);
    Named(print_);
    RowResults.PlainResult(Statement(), print_, TheFinal(), db);
  }

  lemma {:induction false} SelectedPlainly(print_: Expr -> string)
    ensures Plainly(Statement()) && MainAlias(Statement().from) == "e" && Statement().limit.None?
    ensures FinalOf(PlanItemsOf(Statement().exprs).items, "e", print_) == Success(TheFinal()) && TheFinal().names == ["name", "title"]
  {
    Planned();
    Projected(print_);
  }
}
