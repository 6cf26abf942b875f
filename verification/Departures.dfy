/** Where whole statements leave SQL, and exactly when they do not. */
module Departures {
  import opened Wrappers
  import opened Bson
  import opened Sql
  import WhereTheorem
  import opened JoinTheorem
  import opened Select
  import Aggregates
  import opened QueryTheorem
  import Ordering
  import opened Render
  import opened RenderTheorem
  import M = Mongo
  import Source
  import Seqs

  // ----- DISTINCT -----

  lemma {:induction false} RowsIgnoreDistinct(q: Query, distinct: bool)
    ensures RowsPipeline(q.(distinct := distinct)) == RowsPipeline(q)
  {
  }

  lemma {:induction false} LastIgnoresDistinct(q: Query, distinct: bool, main: string, print_: Expr -> string)
    ensures LastStages(q.(distinct := distinct), main, print_) == LastStages(q, main, print_)
  {
  }

  /** Neither the stages nor the projection look at DISTINCT. */
  lemma {:induction false} DistinctIgnored(q: Query, distinct: bool, print_: Expr -> string)
    ensures BuildAggregate(q.(distinct := distinct), print_) == BuildAggregate(q, print_)
  {
    RowsIgnoreDistinct(q, distinct);
    if Source.ExtractFromPlan(q.from).Success? {
      LastIgnoresDistinct(q, distinct, Source.ExtractFromPlan(q.from).value.main.alias, print_);
    }
  }

  lemma {:induction false} Unlimited<A(!new), B(!new)>(q: Query, value: A -> Value, f: A -> B, s: seq<A>)
    requires q.limit.None?
    ensures multiset(Seqs.Map(f, SqlLimited(q, SqlOrder(q.orderBy, value, s)))) == multiset(Seqs.Map(f, s))
  {
    OrderPermutes(q.orderBy, value, f, s);
    assert OffsetOf(q) == 0 && LimitOf(q) == 0;
  }

  /** SELECT DISTINCT that groups, with ORDER BY and LIMIT: the rows returned are SQL's exactly if those selected hold no duplicate as far as LIMIT reaches. */
  lemma {:induction false} GroupedDistinctExactly(q: Query, groupBy: seq<Expr>, print_: Expr -> string, db: M.Database)
    requires Groups(q, groupBy) && QueryFits(q, PlanItemsOf(q.exprs).items, groupBy, db)
    requires BuildAggregate(q, print_).Success? && OrdersByItem(q, MainAlias(q.from))
    ensures var items, main := PlanItemsOf(q.exprs).items, MainAlias(q.from);
            var selected := Seqs.Map(SelectRow(items, main), SqlOrder(q.orderBy, GroupOrder(q, main), SqlGroups(q, groupBy, db)));
            BuildAggregate(q.(distinct := true), print_).Success?
            && (Seqs.Map(Observed(items, main), StatementDocs(BuildAggregate(q.(distinct := true), print_).value, db))
                == SqlLimited(q, Seqs.Distinct(selected))
                <==> DistinctHarmless(q, selected))
  {
    var items, main := PlanItemsOf(q.exprs).items, MainAlias(q.from);
    DistinctIgnored(q, true, print_);
    GroupedStatementCorrect(q, groupBy, print_, db);
    DistinctLimited(q, SelectRow(items, main), SqlOrder(q.orderBy, GroupOrder(q, main), SqlGroups(q, groupBy, db)));
  }

  lemma {:induction false} DistinctLimited<A(!new), B(!new)>(q: Query, f: A -> B, s: seq<A>)
    ensures Seqs.Map(f, SqlLimited(q, s)) == SqlLimited(q, Seqs.Distinct(Seqs.Map(f, s))) <==> DistinctHarmless(q, Seqs.Map(f, s))
  {
    LimitedMap(q, f, s);
    LimitedDistinctExactly(q, Seqs.Map(f, s));
  }

  lemma {:induction false} OrderPermutes<A(!new), B>(orders: seq<Order>, value: A -> Value, f: A -> B, s: seq<A>)
    ensures multiset(Seqs.Map(f, SqlOrder(orders, value, s))) == multiset(Seqs.Map(f, s))
  {
    if orders != [] {
      Ordering.SortHolds(ByValue(value, orders[0].descending), s);
      Seqs.MapMultiset(f, SqlOrder(orders, value, s), s);
    }
  }

  /** SELECT DISTINCT without grouping: likewise. */
  lemma {:induction false} PlainDistinctExactly(q: Query, print_: Expr -> string, f: Final, db: M.Database)
    requires Plainly(q) && BuildAggregate(q, print_).Success?
    requires FinalOf(PlanItemsOf(q.exprs).items, MainAlias(q.from), print_) == Success(f) && PlainFits(q, f, db)
    ensures var selected := Seqs.Map(RowValues(PlanItemsOf(q.exprs).items, MainAlias(q.from)),
                                     SqlOrder(q.orderBy, RowOrder(q), PassingRows(q, db)));
            BuildAggregate(q.(distinct := true), print_).Success?
            && (Seqs.Map(ShownAs(f.names), StatementDocs(BuildAggregate(q.(distinct := true), print_).value, db))
                == SqlLimited(q, Seqs.Distinct(selected))
                <==> DistinctHarmless(q, selected))
  {
    DistinctIgnored(q, true, print_);
    PlainStatementCorrect(q, print_, f, db);
    DistinctLimited(q, RowValues(PlanItemsOf(q.exprs).items, MainAlias(q.from)), SqlOrder(q.orderBy, RowOrder(q), PassingRows(q, db)));
  }

  // ----- * beside aggregates -----

  /** A * in the list of a grouping query is dropped. */
  lemma {:induction false} StarDropped(q: Query, print_: Expr -> string)
    requires PlanItemsOf(q.exprs).hasAgg || GroupExprs(q) != []
    ensures BuildAggregate(q.(exprs := q.exprs + [Star]), print_) == BuildAggregate(q, print_)
  {
    var more := q.(exprs := q.exprs + [Star]);
    StarPlanned(q.exprs);
    assert RowsPipeline(more) == RowsPipeline(q);
    assert !ProjectsLast(more) && !ProjectsLast(q);
  }

  lemma {:induction false} StarPlanned(exprs: seq<SelectExpr>)
    ensures PlanItemsOf(exprs + [Star]) == PlanItemsOf(exprs).(hasStar := true)
  {
    assert (exprs + [Star])[..|exprs|] == exprs;
  }

  // ----- HAVING without grouping -----

  /** The first item with this alias. */
  function ItemCalled(n: string, items: seq<SelectItem>): (item: Option<SelectItem>)
    ensures item.Some? ==> item.value in items && item.value.alias == n
  {
    if items == [] || n == "" then None
    else if items[0].alias == n then Some(items[0])
    else ItemCalled(n, items[1..])
  }

  /** HAVING sees aliases of the select list, columns of the row, and aggregates over the rows. */
  ghost function RowHavingEnv(items: seq<SelectItem>, row: Row, rows: seq<Row>, main: string): Env {
    Env((q: string, n: string) => if q == "" && ItemCalled(n, items).Some? then RowValue(ItemCalled(n, items).value, row, main)
                                  else EnvOf(row, main).col(q, n),
        (a: AggSpec) => Aggregates.SqlAgg(a, rows, main))
  }

  ghost function HavingRow(e: Expr, items: seq<SelectItem>, rows: seq<Row>, main: string): Row -> bool {
    (row: Row) => WhereTheorem.IsTrueOf(Eval(e, RowHavingEnv(items, row, rows, main)))
  }

  /** The row that gives a group's columns: any of its rows, or one without columns if there is none. */
  function Witness(rows: seq<Row>, pick: nat): Row {
    if pick < |rows| then rows[pick] else map[]
  }

  /** MySQL's HAVING without GROUP BY: with an aggregate in it all rows are one group, otherwise it filters them. */
  ghost function HavingSelects(e: Expr, items: seq<SelectItem>, rows: seq<Row>, pick: nat, main: string): seq<Row> {
    if HoldsAgg(e) then
      if HavingRow(e, items, rows, main)(Witness(rows, pick)) then [Witness(rows, pick)] else []
    else Seqs.Filter(HavingRow(e, items, rows, main), rows)
  }

  /** How many rows there must be, or which. */
  ghost predicate HavingHarmless(e: Expr, items: seq<SelectItem>, rows: seq<Row>, pick: nat, main: string) {
    if HoldsAgg(e) then |rows| == if HavingRow(e, items, rows, main)(Witness(rows, pick)) then 1 else 0
    else forall row :: row in rows ==> HavingRow(e, items, rows, main)(row)
  }

  lemma {:induction false} RowsIgnoreHaving(q: Query, e: Expr)
    requires !PlanItemsOf(q.exprs).hasAgg && GroupExprs(q) == []
    ensures RowsPipeline(q.(having := Some(e))) == RowsPipeline(q)
  {
  }

  lemma {:induction false} HavingIgnored(q: Query, e: Expr, print_: Expr -> string)
    requires !PlanItemsOf(q.exprs).hasAgg && GroupExprs(q) == []
    ensures BuildAggregate(q.(having := Some(e)), print_) == BuildAggregate(q, print_)
  {
    RowsIgnoreHaving(q, e);
    assert forall main :: LastStages(q.(having := Some(e)), main, print_) == LastStages(q, main, print_);
  }

  lemma {:induction false} FilterFull<A(!new)>(p: A -> bool, s: seq<A>)
    ensures |Seqs.Filter(p, s)| == |s| <==> forall x :: x in s ==> p(x)
  {
    if s != [] {
      FilterFull(p, s[1..]);
      assert forall x :: x in s <==> x == s[0] || x in s[1..];
    }
  }

  /** HAVING without grouping is dropped: right exactly if every row passes it, or with an aggregate in it, if there is one row and it passes, or none and it fails. */
  lemma {:induction false} HavingDroppedExactly(q: Query, e: Expr, print_: Expr -> string, f: Final, pick: nat, db: M.Database)
    requires q.limit.None? && Plainly(q) && BuildAggregate(q, print_).Success?
    requires FinalOf(PlanItemsOf(q.exprs).items, MainAlias(q.from), print_) == Success(f) && PlainFits(q, f, db)
    requires PassingRows(q, db) != [] ==> pick < |PassingRows(q, db)|
    ensures var items, rows, main := PlanItemsOf(q.exprs).items, PassingRows(q, db), MainAlias(q.from);
            BuildAggregate(q.(having := Some(e)), print_).Success?
            && (multiset(Seqs.Map(ShownAs(f.names), StatementDocs(BuildAggregate(q.(having := Some(e)), print_).value, db)))
                == multiset(Seqs.Map(RowValues(items, main), HavingSelects(e, items, rows, pick, main)))
                <==> HavingHarmless(e, items, rows, pick, main))
  {
    var items, rows, main := PlanItemsOf(q.exprs).items, PassingRows(q, db), MainAlias(q.from);
    HavingIgnored(q, e, print_);
    PlainStatementCorrect(q, print_, f, db);
    Unlimited(q, RowOrder(q), RowValues(items, main), rows);
    UndroppedRows(e, items, rows, pick, main, Seqs.Map(ShownAs(f.names), StatementDocs(BuildAggregate(q, print_).value, db)));
  }

  lemma {:induction false} UndroppedRows(e: Expr, items: seq<SelectItem>, rows: seq<Row>, pick: nat, main: string, shown: seq<seq<Value>>)
    requires multiset(shown) == multiset(Seqs.Map(RowValues(items, main), rows)) && (rows != [] ==> pick < |rows|)
    ensures multiset(shown) == multiset(Seqs.Map(RowValues(items, main), HavingSelects(e, items, rows, pick, main)))
            <==> HavingHarmless(e, items, rows, pick, main)
  {
    if HoldsAgg(e) {
      OneGroup(RowValues(items, main), rows, Witness(rows, pick), HavingRow(e, items, rows, main)(Witness(rows, pick)), shown);
    } else {
      DroppedFilter(HavingRow(e, items, rows, main), RowValues(items, main), rows, shown);
    }
  }

  lemma {:induction false} OneGroup<A(!new), B(!new)>(f: A -> B, s: seq<A>, x: A, holds: bool, shown: seq<B>)
    requires multiset(shown) == multiset(Seqs.Map(f, s)) && (s != [] ==> x in s)
    ensures multiset(shown) == multiset(Seqs.Map(f, if holds then [x] else [])) <==> |s| == if holds then 1 else 0
  {
    var kept := if holds then [x] else [];
    assert |multiset(shown)| == |Seqs.Map(f, s)| == |s|;
    assert |multiset(Seqs.Map(f, kept))| == |kept|;
    if |s| == |kept| {
      assert s == kept;
    }
  }

  lemma {:induction false} DroppedFilter<A(!new), B(!new)>(p: A -> bool, f: A -> B, s: seq<A>, shown: seq<B>)
    requires multiset(shown) == multiset(Seqs.Map(f, s))
    ensures multiset(shown) == multiset(Seqs.Map(f, Seqs.Filter(p, s))) <==> forall x :: x in s ==> p(x)
  {
    FilterFull(p, s);
    assert |multiset(shown)| == |Seqs.Map(f, s)| == |s|;
    if forall x :: x in s ==> p(x) {
      Seqs.FilterAll(p, s);
    } else {
      assert |multiset(Seqs.Map(f, Seqs.Filter(p, s)))| == |Seqs.Filter(p, s)| != |s|;
    }
  }

  // ----- the final projection -----

  /** A joined table's `_id` comes out as the main table's: right exactly if they are the same. */
  lemma {:induction false} JoinedIdExactly(items: seq<SelectItem>, f: Final, row: Row, main: string, i: nat)
    requires Projects(f, items, main) && M.KeepsOnly(FinalSpec(f)) && i < |items|
    requires items[i].FieldItem? && f.names[i] == "_id"
    ensures var shown := NullOf(Get(M.ProjectDoc(FinalSpec(f), DocOf(row, main)), "_id"));
            shown == RowValue(items[i], row, main)
            <==> NullOf(Get(DocOf(row, main), "_id")) == RowValue(items[i], row, main)
  {
    ShownId(FinalSpec(f), DocOf(row, main));
  }

  /** A number or boolean in the select list is taken as a flag: right exactly if it is not 0 or false, and the document holds it there. */
  lemma {:induction false} FlagExactly(spec: map<string, M.Projected>, name: string, v: Value, d: Document)
    requires GoodName(name) && (v.Num? || v.Bool?) && M.KeepsOnly(spec)
    requires name in spec && spec[name] == AsProjected(M.Const(v))
    ensures NullOf(Get(M.ProjectDoc(spec, d), name)) == v <==> v != Num(0.0) && v != Bool(false) && NullOf(Get(d, name)) == v
  {
    ShownField(spec, name, d);
    GetName(d, name);
  }

  /** A joined column whose leaf is taken is renamed; it collides exactly if that name is taken as well. */
  lemma {:induction false} CollidesExactly(f: Final, items: seq<SelectItem>, q: string, x: string, main: string, print_: Expr -> string)
    requires Projects(f, items, main) && Seqs.NoDup(f.names) && GoodName(q) && GoodName(x) && q != main && x != "_id"
    ensures var g := FinalStep(f, FieldItem(q, x, ""), main, print_).value;
            Seqs.NoDup(g.names) <==> x !in f.names || Underscored(q + "." + x) !in f.names
  {
    JoinedName(q, x, main, f.spec.Keys);
    var g := FinalStep(f, FieldItem(q, x, ""), main, print_).value;
    var name := g.names[|f.names|];
    assert g.names == f.names + [name];
    assert x in f.spec.Keys <==> x in f.names;
    if name in f.names {
      var i :| 0 <= i < |f.names| && f.names[i] == name;
      assert g.names[i] == g.names[|f.names|];
    } else {
      assert forall i :: 0 <= i < |f.names| ==> g.names[i] == f.names[i] != name;
    }
  }

  lemma {:induction false} TwoColumns(a: string, b: string, x: string, main: string, print_: Expr -> string)
    requires GoodName(a) && GoodName(b) && GoodName(x) && a != main && b != main && x != "_id"
    ensures var f := FinalOf([FieldItem(a, x, ""), FieldItem(b, x, "")], main, print_);
            f.Success? && f.value.names == [x, Underscored(b + "." + x)] && GoodNames(f.value.names)
  {
    var one, two := FieldItem(a, x, ""), FieldItem(b, x, "");
    FinalOfOne(one, main, print_);
    FinalOfTwo(one, two, main, print_);
    JoinedName(a, x, main, {"_id"});
    var f := FinalOf([one], main, print_).value;
    assert f.names == [x] && x in f.spec.Keys;
    JoinedName(b, x, main, f.spec.Keys);
    var path := b + "." + x;
    assert path[0] == b[0] && Underscored(path)[0] == b[0];
    assert x in [x, Underscored(path)];
  }

  /** SELECT a.x, b.x from joined tables: the second column is renamed, and both values are there. */
  lemma {:induction false} BothSurvive(a: string, b: string, x: string, row: Row, main: string, print_: Expr -> string)
    requires GoodName(a) && GoodName(b) && GoodName(x) && a != main && b != main && x != "_id"
    requires WellFormed(row, main) && GoodName(main) && Readable(row, main, a, x) && Readable(row, main, b, x)
    ensures FinalOf([FieldItem(a, x, ""), FieldItem(b, x, "")], main, print_).Success?
    ensures var f := FinalOf([FieldItem(a, x, ""), FieldItem(b, x, "")], main, print_).value;
            var d := M.ProjectDoc(FinalSpec(f), DocOf(row, main));
            NullOf(Get(d, x)) == EnvOf(row, main).col(a, x)
            && NullOf(Get(d, Underscored(b + "." + x))) == EnvOf(row, main).col(b, x)
  {
    var items := [FieldItem(a, x, ""), FieldItem(b, x, "")];
    TwoColumns(a, b, x, main, print_);
    var f := FinalOf(items, main, print_).value;
    FinalProjects(items, main, print_);
    UnderscoredId(b, x);
    ProjectedItem(items, f, row, main, 0);
    ProjectedItem(items, f, row, main, 1);
  }

  lemma {:induction false} UnderscoredId(q: string, x: string)
    requires q != [] && x != [] && DotFree(q) && DotFree(x)
    ensures Underscored(q + "." + x) != "_id"
  {
    var path := q + "." + x;
    UnderscoredAt(path, |q|);
    UnderscoredAt(path, 0);
    if |path| == 3 {
      assert Underscored(path)[1] == '_' && "_id"[1] == 'i';
    }
  }

  lemma {:induction false} UnderscoredAt(path: string, i: nat)
    requires i < |path|
    ensures Underscored(path)[i] == if path[i] == '.' then '_' else path[i]
  {
    if i > 0 {
      UnderscoredAt(path[1..], i - 1);
    }
  }
}
