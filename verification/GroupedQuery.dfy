/** A whole grouped SELECT: joins, WHERE, grouping, HAVING and the rows that come out. */
module GroupedQuery {
  import opened Wrappers
  import opened Bson
  import opened Sql
  import Compiler
  import ValueTheorem
  import WhereTheorem
  import opened JoinTheorem
  import opened Select
  import opened HavingTheorem
  import opened Aggregates
  import opened GroupTheorem
  import Facet
  import Stages
  import M = Mongo
  import W = Where
  import Seqs

  // ----- grouping stages -----

  /** The grouping stages give the output rows of SQL's groups. */
  lemma {:induction false} GroupingCorrect(groupBy: seq<Expr>, st: GroupState, rows: seq<Row>, main: string, db: M.Database)
    requires AllCols(groupBy) && RowsFit(groupBy, st.outputs, rows, main)
    ensures M.Run(GroupingStages(groupBy, st, main), Seqs.Map(AsJoined(main), rows), db)
            == Seqs.Map(OutRows(groupBy, st.outputs, main), GroupsOf(groupBy, rows, main))
  {
    if groupBy == [] {
      var g := GroupOf([], rows);
      assert GroupsOf(groupBy, rows, main) == [g];
      assert g in GroupsOf(groupBy, rows, main);
      Facet.FacetRows(st.outputs, rows, main, db);
    } else {
      GroupingSome(groupBy, st, rows, main, db);
    }
  }

  lemma {:induction false} GroupThenProject(g: M.GroupSpec, spec: map<string, M.Projected>, docs: seq<Document>, db: M.Database)
    ensures M.Run([M.Group(g), M.Project(spec)], docs, db) == Seqs.Map(M.Projector(spec), M.GroupAll(g, docs))
  {
    RunTwo(M.Group(g), M.Project(spec), docs, db);
    M.GroupRuns(g, docs, db);
    M.ProjectRuns(spec, M.GroupAll(g, docs), db);
  }

  lemma {:induction false} GroupingSome(groupBy: seq<Expr>, st: GroupState, rows: seq<Row>, main: string, db: M.Database)
    requires AllCols(groupBy) && groupBy != [] && RowsFit(groupBy, st.outputs, rows, main)
    ensures M.Run(GroupingStages(groupBy, st, main), Seqs.Map(AsJoined(main), rows), db)
            == Seqs.Map(OutRows(groupBy, st.outputs, main), GroupsOf(groupBy, rows, main))
  {
    var g, spec := SpecOf(groupBy, st.outputs, main), ProjectSpec(groupBy, st.outputs);
    assert GroupingStages(groupBy, st, main) == [M.Group(g), M.Project(spec)];
    GroupThenProject(g, spec, Seqs.Map(AsJoined(main), rows), db);
    AllGroups(groupBy, st.outputs, rows, main);
  }

  // ----- HAVING -----

  function RowEnv(d: Document): Env {
    Env((q: string, n: string) => NullOf(Get(d, Compiler.PathOf(q, n, ""))), (a: AggSpec) => Null)
  }

  /** As the emitted filter reads it: every column off the output row, under its path. */
  ghost function ReadEnv(groupBy: seq<Expr>, outputs: map<string, AggSpec>, g: GroupOf, main: string): Env
    requires AllCols(groupBy)
  {
    Env(RowEnv(OutRow(groupBy, outputs, g, main)).col, (a: AggSpec) => SqlAgg(a, g.members, main))
  }

  ghost function ReadHolds(having: Option<Expr>, groupBy: seq<Expr>, outputs: map<string, AggSpec>, main: string): GroupOf -> bool
    requires AllCols(groupBy)
  {
    (g: GroupOf) => having.None? || WhereTheorem.IsTrueOf(Eval(having.value, ReadEnv(groupBy, outputs, g, main)))
  }

  /** A column of the group, which any of its rows gives. */
  function GroupColumn(g: GroupOf, q: string, n: string, main: string): Value {
    if g.members == [] then Null else EnvOf(g.members[0], main).col(q, n)
  }

  /** SQL's HAVING sees the output fields, the columns of the tables, and the aggregates of the group. */
  ghost function HavingEnv(groupBy: seq<Expr>, outputs: map<string, AggSpec>, g: GroupOf, main: string): Env
    requires AllCols(groupBy)
  {
    Env((q: string, n: string) => if q == "" then RowEnv(OutRow(groupBy, outputs, g, main)).col("", n) else GroupColumn(g, q, n, main),
        (a: AggSpec) => SqlAgg(a, g.members, main))
  }

  ghost function HavingHolds(having: Option<Expr>, groupBy: seq<Expr>, outputs: map<string, AggSpec>, main: string): GroupOf -> bool
    requires AllCols(groupBy)
  {
    (g: GroupOf) => having.None? || WhereTheorem.IsTrueOf(Eval(having.value, HavingEnv(groupBy, outputs, g, main)))
  }

  /** HAVING names its columns without their tables. */
  predicate NamesOutputs(having: Option<Expr>) {
    having.Some? ==> forall c :: c in Cols(having.value) ==> c.0 == ""
  }

  ghost predicate OutputColumn(c: (string, string)) {
    GoodName(c.1) && if c.0 == "" then NotHidden(c.1) else GoodName(c.0) && NotHidden(c.0)
  }

  /** After rewriting, HAVING lies in the fragment of the WHERE theorem. */
  ghost predicate HavingFits(having: Expr, groupBy: seq<Expr>, st: GroupState, g: GroupOf, main: string)
    requires AllCols(groupBy) && RewriteHaving(having, st, main).Success?
  {
    var r := RewriteHaving(having, st, main).value;
    var d := OutRow(groupBy, r.st.outputs, g, main);
    (forall c :: c in Cols(having) ==> OutputColumn(c))
    && ValueTheorem.Plain(r.e) && WhereTheorem.Fits(r.e, true, RowEnv(d), d)
    && (forall c :: c in Cols(r.e) ==> IsScalar(RowEnv(d).col(c.0, c.1)))
  }

  lemma {:induction false} OutRowReads(groupBy: seq<Expr>, outputs: map<string, AggSpec>, g: GroupOf, main: string, n: string)
    requires AllCols(groupBy) && n in outputs && GoodName(n)
    ensures RowEnv(OutRow(groupBy, outputs, g, main)).col("", n) == SqlAgg(outputs[n], g.members, main)
  {
    GetName(OutRow(groupBy, outputs, g, main), n);
    AggregatePresent(outputs[n], g.members, main);
  }

  /** Fields HAVING added change nothing else in the row, and dropping them gives it back. */
  lemma {:induction false} OutRowGrows(groupBy: seq<Expr>, a: GroupState, b: GroupState, g: GroupOf, main: string)
    requires AllCols(groupBy) && GoodOutputs(groupBy, b.outputs, main) && |g.key| == |groupBy|
    requires Consistent(b) && Grows(a, b) && a.hidden == []
    ensures OutRow(groupBy, b.outputs, g, main) - (set n | n in b.hidden) == OutRow(groupBy, a.outputs, g, main)
  {
    KeyDocNames(groupBy, g.key);
    assert b.hidden[0..] == b.hidden;
    forall n
      ensures n in a.outputs <==> n in b.outputs && n !in b.hidden
      ensures n in b.hidden ==> !HasName(groupBy, n)
    {
      assert n in b.hidden ==> n in b.outputs;
    }
    MinusAdded(KeyDoc(groupBy, g.key), map n | n in b.outputs :: SqlAgg(b.outputs[n], g.members, main),
               map n | n in a.outputs :: SqlAgg(a.outputs[n], g.members, main), b.hidden);
  }

  lemma {:induction false} MinusAdded(key: Document, big: Document, small: Document, added: seq<string>)
    requires forall n :: n in added ==> n !in key
    requires forall n :: n in small <==> n in big && n !in added
    requires forall n :: n in small ==> small[n] == big[n]
    ensures (key + big) - (set n | n in added) == key + small
  {
  }

  lemma {:induction false} DropHidden(hidden: seq<string>, d: Document)
    ensures M.ProjectDoc(DropSpec(hidden), d) == d - (set n | n in hidden)
  {
    assert DropSpec(hidden).Keys == set n | n in hidden;
  }

  lemma {:induction false} HavingColumns(having: Expr, groupBy: seq<Expr>, st: GroupState, r: Rewritten<Expr>, g: GroupOf, main: string)
    requires AllCols(groupBy) && RewriteHaving(having, st, main) == Success(r) && HavingFits(having, groupBy, st, g, main)
    requires Consistent(st) && st.hidden == [] && |g.key| == |groupBy| && GoodOutputs(groupBy, r.st.outputs, main)
    ensures SameColumns(ReadEnv(groupBy, st.outputs, g, main), RowEnv(OutRow(groupBy, r.st.outputs, g, main)), Cols(having))
  {
    RewriteAdvances(having, st, main);
    OutRowGrows(groupBy, st, r.st, g, main);
    var big, small := OutRow(groupBy, r.st.outputs, g, main), OutRow(groupBy, st.outputs, g, main);
    forall c | c in Cols(having)
      ensures RowEnv(big).col(c.0, c.1) == ReadEnv(groupBy, st.outputs, g, main).col(c.0, c.1)
    {
      assert (if c.0 == "" then c.1 else c.0) !in r.st.hidden;
      GetName(big, c.1);
      GetName(small, c.1);
      if c.0 != "" {
        GetQualified(big, c.0, c.1);
        GetQualified(small, c.0, c.1);
      }
    }
  }

  lemma {:induction false} HavingMeans(having: Expr, groupBy: seq<Expr>, st: GroupState, r: Rewritten<Expr>, g: GroupOf, env: Env, main: string)
    requires AllCols(groupBy) && RewriteHaving(having, st, main) == Success(r) && HavingFits(having, groupBy, st, g, main)
    requires Consistent(st) && st.hidden == [] && |g.key| == |groupBy| && GoodOutputs(groupBy, r.st.outputs, main)
    requires SameColumns(env, RowEnv(OutRow(groupBy, r.st.outputs, g, main)), Cols(having))
    requires forall a :: env.agg(a) == SqlAgg(a, g.members, main)
    ensures Eval(r.e, RowEnv(OutRow(groupBy, r.st.outputs, g, main))) == Eval(having, env)
  {
    var d := OutRow(groupBy, r.st.outputs, g, main);
    RewriteAdvances(having, st, main);
    forall a | a in r.st.names
      ensures RowEnv(d).col("", r.st.names[a]) == env.agg(a)
    {
      OutRowReads(groupBy, r.st.outputs, g, main, r.st.names[a]);
    }
    RewriteMeans(having, st, main, env, RowEnv(d));
  }

  /** The rewritten predicate on the output row passes just the groups HAVING passes, with its columns read there. */
  lemma {:induction false} HavingExact(having: Expr, groupBy: seq<Expr>, st: GroupState, r: Rewritten<Expr>, g: GroupOf, main: string)
    requires AllCols(groupBy) && RewriteHaving(having, st, main) == Success(r) && HavingFits(having, groupBy, st, g, main)
    requires Consistent(st) && st.hidden == [] && |g.key| == |groupBy| && GoodOutputs(groupBy, r.st.outputs, main)
    requires W.TranslateWhere(r.e).Success?
    ensures M.Matches(W.TranslateWhere(r.e).value, OutRow(groupBy, r.st.outputs, g, main))
            <==> ReadHolds(Some(having), groupBy, st.outputs, main)(g)
  {
    var d := OutRow(groupBy, r.st.outputs, g, main);
    HavingColumns(having, groupBy, st, r, g, main);
    HavingMeans(having, groupBy, st, r, g, ReadEnv(groupBy, st.outputs, g, main), main);
    forall c | c in Cols(r.e)
      ensures ValueTheorem.ColumnAgrees(d, RowEnv(d), "", c)
    {
    }
    WhereTheorem.WhereExact(r.e, RowEnv(d), d);
  }

  /** Without qualifiers that is what SQL's HAVING sees. */
  lemma {:induction false} HavingAsRead(having: Option<Expr>, groupBy: seq<Expr>, st: GroupState, g: GroupOf, main: string)
    requires AllCols(groupBy) && Consistent(st) && st.hidden == [] && PlanHaving(having, st, main).Success?
    requires GoodOutputs(groupBy, PlanHaving(having, st, main).value.st.outputs, main) && |g.key| == |groupBy|
    requires NamesOutputs(having) && (having.Some? ==> HavingFits(having.value, groupBy, st, g, main))
    ensures ReadHolds(having, groupBy, st.outputs, main)(g) == HavingHolds(having, groupBy, st.outputs, main)(g)
  {
    if having.Some? {
      var r := RewriteHaving(having.value, st, main).value;
      HavingColumns(having.value, groupBy, st, r, g, main);
      HavingMeans(having.value, groupBy, st, r, g, ReadEnv(groupBy, st.outputs, g, main), main);
      HavingMeans(having.value, groupBy, st, r, g, HavingEnv(groupBy, st.outputs, g, main), main);
    }
  }

  /** HAVING's stages keep the groups it passes and drop the fields it added. */
  lemma {:induction false} HavingCorrect(having: Option<Expr>, groupBy: seq<Expr>, st: GroupState, gs: seq<GroupOf>, main: string, db: M.Database)
    requires AllCols(groupBy) && Consistent(st) && st.hidden == [] && PlanHaving(having, st, main).Success?
    requires HavingStages(PlanHaving(having, st, main).value).Success?
    requires GoodOutputs(groupBy, PlanHaving(having, st, main).value.st.outputs, main)
    requires forall g :: g in gs ==> |g.key| == |groupBy| && (having.Some? ==> HavingFits(having.value, groupBy, st, g, main))
    ensures var h := PlanHaving(having, st, main).value;
            M.Run(HavingStages(h).value, Seqs.Map(OutRows(groupBy, h.st.outputs, main), gs), db)
            == Seqs.Map(OutRows(groupBy, st.outputs, main),
                        Seqs.Filter(ReadHolds(having, groupBy, st.outputs, main), gs))
  {
    if having.None? {
      Seqs.FilterAll(ReadHolds(having, groupBy, st.outputs, main), gs);
    } else {
      var r := RewriteHaving(having.value, st, main).value;
      HavingSome(having.value, groupBy, st, r, W.TranslateWhere(r.e).value, gs, main, db);
    }
  }

  lemma {:induction false} HavingSome(having: Expr, groupBy: seq<Expr>, st: GroupState, r: Rewritten<Expr>, f: M.Filter, gs: seq<GroupOf>,
                   main: string, db: M.Database)
    requires AllCols(groupBy) && Consistent(st) && st.hidden == [] && RewriteHaving(having, st, main) == Success(r)
    requires W.TranslateWhere(r.e) == Success(f) && GoodOutputs(groupBy, r.st.outputs, main)
    requires forall g :: g in gs ==> |g.key| == |groupBy| && HavingFits(having, groupBy, st, g, main)
    ensures M.Run([M.Match(f)] + if r.st.hidden == [] then [] else [M.Project(DropSpec(r.st.hidden))],
                  Seqs.Map(OutRows(groupBy, r.st.outputs, main), gs), db)
            == Seqs.Map(OutRows(groupBy, st.outputs, main),
                        Seqs.Filter(ReadHolds(Some(having), groupBy, st.outputs, main), gs))
  {
    HavingFilter(having, groupBy, st, r, f, gs, main);
    RewriteAdvances(having, st, main);
    DropStage(groupBy, st, r.st, Seqs.Filter(ReadHolds(Some(having), groupBy, st.outputs, main), gs), main, db,
              M.Match(f), Seqs.Map(OutRows(groupBy, r.st.outputs, main), gs));
  }

  lemma {:induction false} HavingFilter(having: Expr, groupBy: seq<Expr>, st: GroupState, r: Rewritten<Expr>, f: M.Filter, gs: seq<GroupOf>, main: string)
    requires AllCols(groupBy) && Consistent(st) && st.hidden == [] && RewriteHaving(having, st, main) == Success(r)
    requires W.TranslateWhere(r.e) == Success(f) && GoodOutputs(groupBy, r.st.outputs, main)
    requires forall g :: g in gs ==> |g.key| == |groupBy| && HavingFits(having, groupBy, st, g, main)
    ensures Seqs.Filter(M.Matcher(f), Seqs.Map(OutRows(groupBy, r.st.outputs, main), gs))
            == Seqs.Map(OutRows(groupBy, r.st.outputs, main),
                        Seqs.Filter(ReadHolds(Some(having), groupBy, st.outputs, main), gs))
  {
    var big := OutRows(groupBy, r.st.outputs, main);
    var holds := ReadHolds(Some(having), groupBy, st.outputs, main);
    forall g | g in gs
      ensures holds(g) == M.Matcher(f)(big(g))
    {
      HavingExact(having, groupBy, st, r, g, main);
    }
    Seqs.FilterMap(M.Matcher(f), big, holds, gs);
  }

  /** Dropping the hidden fields takes the rows with them to the rows without. */
  lemma {:induction false} DropRows(groupBy: seq<Expr>, a: GroupState, b: GroupState, kept: seq<GroupOf>, main: string)
    requires AllCols(groupBy) && GoodOutputs(groupBy, b.outputs, main)
    requires Consistent(b) && Grows(a, b) && a.hidden == []
    requires forall g :: g in kept ==> |g.key| == |groupBy|
    ensures Seqs.Map(M.Projector(DropSpec(b.hidden)), Seqs.Map(OutRows(groupBy, b.outputs, main), kept))
            == Seqs.Map(OutRows(groupBy, a.outputs, main), kept)
  {
    var big, small := OutRows(groupBy, b.outputs, main), OutRows(groupBy, a.outputs, main);
    forall g | g in kept
      ensures small(g) == M.Projector(DropSpec(b.hidden))(big(g))
    {
      OutRowGrows(groupBy, a, b, g, main);
      DropHidden(b.hidden, big(g));
    }
    Seqs.MapMap(M.Projector(DropSpec(b.hidden)), big, small, kept);
  }

  lemma {:induction false} NothingDropped(groupBy: seq<Expr>, a: GroupState, b: GroupState, main: string)
    requires AllCols(groupBy) && Grows(a, b) && a.hidden == [] == b.hidden
    ensures a.outputs == b.outputs
  {
    assert forall n :: n in b.outputs ==> n in a.outputs;
  }

  lemma {:induction false} ThenDrop(match_: M.Stage, hidden: seq<string>, docs: seq<Document>, db: M.Database)
    ensures M.Run([match_] + if hidden == [] then [] else [M.Project(DropSpec(hidden))], docs, db)
            == if hidden == [] then M.RunStage(match_, docs, db)
               else Seqs.Map(M.Projector(DropSpec(hidden)), M.RunStage(match_, docs, db))
  {
    Stages.OptionalRun([match_], hidden != [], M.Project(DropSpec(hidden)), docs, db);
    Facet.RunOne(match_, docs, db);
  }

  lemma {:induction false} DropStage(groupBy: seq<Expr>, a: GroupState, b: GroupState, kept: seq<GroupOf>, main: string, db: M.Database,
                  match_: M.Stage, docs: seq<Document>)
    requires AllCols(groupBy) && GoodOutputs(groupBy, b.outputs, main)
    requires Consistent(b) && Grows(a, b) && a.hidden == []
    requires forall g :: g in kept ==> |g.key| == |groupBy|
    requires M.RunStage(match_, docs, db) == Seqs.Map(OutRows(groupBy, b.outputs, main), kept)
    ensures M.Run([match_] + if b.hidden == [] then [] else [M.Project(DropSpec(b.hidden))], docs, db)
            == Seqs.Map(OutRows(groupBy, a.outputs, main), kept)
  {
    ThenDrop(match_, b.hidden, docs, db);
    if b.hidden == [] {
      NothingDropped(groupBy, a, b, main);
    } else {
      DropRows(groupBy, a, b, kept, main);
    }
  }
}
