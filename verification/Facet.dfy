/** The $facet around a grouping without GROUP BY: one row even of an empty input. */
module Facet {
  import opened Bson
  import opened Sql
  import Compiler
  import opened JoinTheorem
  import opened Select
  import Aggregates
  import opened GroupTheorem
  import M = Mongo
  import Seqs

  lemma {:induction false} OnlyGroup(outputs: map<string, AggSpec>, rows: seq<Row>, main: string)
    requires GoodOutputs([], outputs, main) && GroupSafe(outputs, rows, main)
    ensures Seqs.Map(M.Projector(ProjectSpec([], outputs)),
                     M.GroupAll(SpecOf([], outputs, main), Seqs.Map(AsJoined(main), rows)))
            == if rows == [] then [] else [OutRow([], outputs, GroupOf([], rows), main)]
  {
    var docs := Seqs.Map(AsJoined(main), rows);
    var g := SpecOf([], outputs, main);
    if rows != [] {
      var keys := Seqs.Map(M.KeyFinder(g.id), docs);
      assert keys[0] in keys;
      Seqs.DistinctSame(keys, Null);
      Seqs.FilterAll(M.InGroup(g.id, Null), docs);
      GroupRow([], outputs, GroupOf([], rows), main);
      assert M.GroupAll(g, docs) == [M.GroupDoc(g, Null, docs)];
    }
  }

  lemma {:induction false} DefaultsRow(outputs: map<string, AggSpec>, main: string)
    ensures Defaults(outputs) == OutRow([], outputs, GroupOf([], []), main)
  {
    forall n | n in outputs
      ensures AggDefault(outputs[n]) == Aggregates.SqlAgg(outputs[n], [], main)
    {
      Aggregates.DefaultField(outputs[n], main);
    }
  }

  lemma {:induction false} ReadName(d: Document, n: string)
    requires GoodName(n)
    ensures M.Eval(M.Const(Str("$" + n)), d, map[]) == Ok(if n in d then d[n] else Missing)
  {
    GetName(d, n);
    assert ("$" + n)[1..] == n;
  }

  lemma {:induction false} SizeTest(items: seq<Value>, rows: M.MExpr, d: Document)
    requires M.Eval(rows, d, map[]) == Ok(Arr(items))
    ensures M.Eval(M.MCompare(M.CGt, M.Reduce(M.ToSize, rows), Compiler.IntConst(0)), d, map[]) == Ok(Bool(items != []))
  {
    assert M.Eval(M.Reduce(M.ToSize, rows), d, map[]) == Ok(Num(|items| as real));
  }

  lemma {:induction false} CondChooses(test: M.MExpr, yes: M.MExpr, no: M.MExpr, d: Document, b: bool)
    requires M.Eval(test, d, map[]) == Ok(Bool(b))
    ensures M.Eval(M.Cond(test, yes, no), d, map[]) == if b then M.Eval(yes, d, map[]) else M.Eval(no, d, map[])
  {
  }

  lemma {:induction false} RowChosen(items: seq<Value>, defaults: map<string, Value>, d: Document)
    requires M.Eval(M.Const(Str("$__rows")), d, map[]) == Ok(Arr(items))
    ensures M.Eval(RowOrDefaults(defaults), d, map[]) == Ok(if items == [] then Doc(defaults) else items[0])
  {
    var rows := M.Const(Str("$__rows"));
    SizeTest(items, rows, d);
    CondChooses(M.MCompare(M.CGt, M.Reduce(M.ToSize, rows), Compiler.IntConst(0)),
                M.ElemAt(rows, 0), M.Const(Doc(defaults)), d, items != []);
  }

  /** The $cond after $facet takes the one row there is, or else the defaults. */
  lemma {:induction false} FacetRow(items: seq<Value>, defaults: map<string, Value>)
    requires forall v :: v in items ==> v.Doc?
    ensures M.ProjectDoc(PickSpec(defaults), map["__rows" := Arr(items)])
            == map["__row" := if items == [] then Doc(defaults) else items[0]]
  {
    var d := map["__rows" := Arr(items)];
    var spec := PickSpec(defaults);
    assert "__rows"[0] == '_';
    ReadName(d, "__rows");
    RowChosen(items, defaults, d);
    var v := if items == [] then Doc(defaults) else items[0];
    assert M.ValueOf(RowOrDefaults(defaults), d, map[]) == v;
    assert v != Missing by {
      if items != [] { assert items[0] in items; }
    }
    assert "_id" !in d by { assert "__rows"[1] == '_' && "_id"[1] == 'i'; }
    ProjectOne(RowOrDefaults(defaults), "__row", d);
    assert spec == map["__row" := M.Computed(RowOrDefaults(defaults))];
  }

  lemma {:induction false} ProjectOne(e: M.MExpr, name: string, d: Document)
    requires "_id" !in d
    ensures M.ProjectDoc(map[name := M.Computed(e)], d)
            == if M.ValueOf(e, d, map[]) == Missing then map[] else map[name := M.ValueOf(e, d, map[])]
  {
    var spec := map[name := M.Computed(e)];
    assert name in spec && spec[name] != M.Exclude;
  }

  lemma {:induction false} RootRow(v: Value)
    ensures M.Rerooter(M.Const(Str("$__row")))(map["__row" := v]) == M.Root(v)
  {
    ReadName(map["__row" := v], "__row");
  }

  lemma {:induction false} RunOne(s: M.Stage, docs: seq<Document>, db: M.Database)
    ensures M.Run([s], docs, db) == M.RunStage(s, docs, db)
  {
    assert [s][1..] == [];
  }

  lemma {:induction false} RunThree(a: M.Stage, b: M.Stage, c: M.Stage, docs: seq<Document>, db: M.Database)
    ensures M.Run([a, b, c], docs, db) == M.RunStage(c, M.RunStage(b, M.RunStage(a, docs, db), db), db)
  {
    assert [a, b, c][1..] == [b, c];
    RunTwo(b, c, M.RunStage(a, docs, db), db);
  }

  lemma {:induction false} StageFacet(inner: seq<M.Stage>, docs: seq<Document>, db: M.Database)
    ensures M.RunStage(M.Facet("__rows", inner), docs, db) == [map["__rows" := Arr(M.AsDocs(M.Run(inner, docs, db)))]]
  {
  }

  lemma {:induction false} StageProjectOne(spec: map<string, M.Projected>, d: Document, db: M.Database)
    ensures M.RunStage(M.Project(spec), [d], db) == [M.ProjectDoc(spec, d)]
  {
  }

  lemma {:induction false} StageRootOne(e: M.MExpr, d: Document, db: M.Database)
    ensures M.RunStage(M.ReplaceRoot(e), [d], db) == [M.Rerooter(e)(d)]
  {
  }

  /** The three stages, whatever the inner pipeline. */
  lemma {:induction false} FacetRun(inner: seq<M.Stage>, defaults: map<string, Value>, docs: seq<Document>, db: M.Database)
    ensures var out := M.Run(inner, docs, db);
            M.Run([M.Facet("__rows", inner), M.Project(PickSpec(defaults)), M.ReplaceRoot(M.Const(Str("$__row")))], docs, db)
            == [if out == [] then defaults else out[0]]
  {
    var out := M.Run(inner, docs, db);
    var items := M.AsDocs(out);
    var d := map["__rows" := Arr(items)];
    var v := if items == [] then Doc(defaults) else items[0];
    var root := M.Const(Str("$__row"));
    RunThree(M.Facet("__rows", inner), M.Project(PickSpec(defaults)), M.ReplaceRoot(root), docs, db);
    StageFacet(inner, docs, db);
    StageProjectOne(PickSpec(defaults), d, db);
    FacetRow(items, defaults);
    StageRootOne(root, map["__row" := v], db);
    RootRow(v);
  }

  /** Exactly one row comes out of a grouping without GROUP BY: its aggregates, COUNT 0 if empty. */
  lemma {:induction false} FacetRows(outputs: map<string, AggSpec>, rows: seq<Row>, main: string, db: M.Database)
    requires GoodOutputs([], outputs, main) && GroupSafe(outputs, rows, main)
    ensures M.Run(FacetStages(SpecOf([], outputs, main), ProjectSpec([], outputs), Defaults(outputs)),
                  Seqs.Map(AsJoined(main), rows), db)
            == [OutRow([], outputs, GroupOf([], rows), main)]
  {
    var group, project := M.Group(SpecOf([], outputs, main)), M.Project(ProjectSpec([], outputs));
    FacetRun([group, project], Defaults(outputs), Seqs.Map(AsJoined(main), rows), db);
    InnerRun(outputs, rows, main, db);
    DefaultsRow(outputs, main);
  }

  lemma {:induction false} InnerRun(outputs: map<string, AggSpec>, rows: seq<Row>, main: string, db: M.Database)
    requires GoodOutputs([], outputs, main) && GroupSafe(outputs, rows, main)
    ensures M.Run([M.Group(SpecOf([], outputs, main)), M.Project(ProjectSpec([], outputs))],
                  Seqs.Map(AsJoined(main), rows), db)
            == if rows == [] then [] else [OutRow([], outputs, GroupOf([], rows), main)]
  {
    OnlyGroup(outputs, rows, main);
    RunTwo(M.Group(SpecOf([], outputs, main)), M.Project(ProjectSpec([], outputs)), Seqs.Map(AsJoined(main), rows), db);
  }
}
