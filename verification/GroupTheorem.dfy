/** Grouping stages compute SQL's groups, aggregates and HAVING. */
module GroupTheorem {
  import opened Bson
  import opened Sql
  import opened Compiler
  import opened ValueTheorem
  import opened JoinTheorem
  import opened Select
  import opened Aggregates
  import M = Mongo
  import Seqs

  // ----- keys -----

  /** The values of the grouping columns; NULLs are alike (ISO/IEC 9075:1992, 7.7). */
  function KeyOfRow(groupBy: seq<Expr>, row: Row, main: string): (key: seq<Value>)
    requires AllCols(groupBy)
    ensures |key| == |groupBy|
  {
    if groupBy == [] then []
    else
      var c := groupBy[|groupBy| - 1];
      KeyOfRow(groupBy[..|groupBy| - 1], row, main) + [EnvOf(row, main).col(c.qual, c.name)]
  }

  function KeyReader(groupBy: seq<Expr>, main: string): Row -> seq<Value>
    requires AllCols(groupBy)
  {
    (row: Row) => KeyOfRow(groupBy, row, main)
  }

  /** The fields a key makes in an output row. */
  function KeyDoc(groupBy: seq<Expr>, key: seq<Value>): Document
    requires AllCols(groupBy) && |key| == |groupBy|
  {
    if groupBy == [] then map[]
    else
      var n := |groupBy| - 1;
      KeyDoc(groupBy[..n], key[..n])[groupBy[n].name := key[n]]
  }

  /** The `_id` of a key's group. */
  function KeyValue(groupBy: seq<Expr>, key: seq<Value>): Value
    requires AllCols(groupBy) && |key| == |groupBy|
  {
    if groupBy == [] then Null else Doc(KeyDoc(groupBy, key))
  }

  predicate DistinctCols(groupBy: seq<Expr>)
    requires AllCols(groupBy)
  {
    && (forall i :: 0 <= i < |groupBy| ==> GoodName(groupBy[i].name))
    && (forall i, j :: 0 <= i < j < |groupBy| ==> groupBy[i].name != groupBy[j].name)
  }

  predicate HasName(groupBy: seq<Expr>, n: string)
    requires AllCols(groupBy)
  {
    exists i :: 0 <= i < |groupBy| && groupBy[i].name == n
  }

  /** Grouping columns are there in every row, as values or as NULL. */
  predicate KeyPresent(groupBy: seq<Expr>, row: Row, main: string)
    requires AllCols(groupBy)
  {
    WellFormed(row, main) && GoodName(main)
    && forall i :: 0 <= i < |groupBy| ==> ColumnPresent(groupBy[i], row, main)
  }

  predicate ColumnPresent(c: Expr, row: Row, main: string)
    requires c.Col?
  {
    Readable(row, main, c.qual, c.name) && PlainColumn(c.qual, c.name)
    && Get(DocOf(row, main), PathOf(c.qual, c.name, main)) != Missing
  }

  /** The `_id` expressions read the values of a key. */
  predicate ReadsKey(fs: map<string, M.MExpr>, d: Document, row: Row, main: string) {
    fs.Keys == d.Keys
    && forall n :: n in d ==> M.ValueOf(fs[n], DocOf(row, main), map[]) == d[n] && d[n] != Missing
  }

  lemma {:induction false} KeyFields(groupBy: seq<Expr>, row: Row, main: string)
    requires AllCols(groupBy) && KeyPresent(groupBy, row, main)
    ensures ReadsKey(IdFields(groupBy, main), KeyDoc(groupBy, KeyOfRow(groupBy, row, main)), row, main)
  {
    if groupBy != [] {
      var n := |groupBy| - 1;
      var c := groupBy[n];
      assert forall i :: 0 <= i < n ==> groupBy[..n][i] == groupBy[i];
      assert KeyPresent(groupBy[..n], row, main);
      KeyFields(groupBy[..n], row, main);
      KeyColumn(c, row, main);
      var key := KeyOfRow(groupBy, row, main);
      assert key[..n] == KeyOfRow(groupBy[..n], row, main);
      assert IdFields(groupBy, main) == IdFields(groupBy[..n], main)[c.name := Ref(PathOf(c.qual, c.name, main))];
      assert KeyDoc(groupBy, key) == KeyDoc(groupBy[..n], key[..n])[c.name := key[n]];
    }
  }

  lemma {:induction false} KeyColumn(c: Expr, row: Row, main: string)
    requires c.Col? && WellFormed(row, main) && GoodName(main) && ColumnPresent(c, row, main)
    ensures M.ValueOf(Ref(PathOf(c.qual, c.name, main)), DocOf(row, main), map[]) == EnvOf(row, main).col(c.qual, c.name)
    ensures EnvOf(row, main).col(c.qual, c.name) != Missing
  {
    DocReads(row, main, c.qual, c.name);
    RefReads(c.qual, c.name, DocOf(row, main), main, map[]);
  }

  lemma {:induction false} KeyRead(fs: map<string, M.MExpr>, key: Document, row: Row, main: string)
    requires ReadsKey(fs, key, row, main)
    ensures M.KeyOf(M.DocId(fs), DocOf(row, main)) == Doc(key)
  {
    assert M.KeyOf(M.DocId(fs), DocOf(row, main)).fields == key;
  }

  // ----- absent grouping columns -----

  function KeyValueIn(c: Expr, row: Row, main: string): Value
    requires c.Col?
  {
    Get(DocOf(row, main), PathOf(c.qual, c.name, main))
  }

  lemma {:induction false} OneKey(c: Expr, row: Row, main: string)
    requires c.Col? && WellFormed(row, main) && GoodName(main) && Readable(row, main, c.qual, c.name) && PlainColumn(c.qual, c.name)
    ensures var v := KeyValueIn(c, row, main);
            M.KeyOf(IdOf([c], main), DocOf(row, main)) == Doc(if v == Missing then map[] else map[c.name := v])
            && KeyOfRow([c], row, main) == [NullOf(v)]
  {
    DocReads(row, main, c.qual, c.name);
    RefReads(c.qual, c.name, DocOf(row, main), main, map[]);
    assert [c][..0] == [];
    assert IdFields([], main) == map[];
    assert IdFields([c], main) == map[c.name := Ref(PathOf(c.qual, c.name, main))];
    assert KeyOfRow([], row, main) == [];
  }

  /** Two rows make one group when SQL says so. */
  predicate GroupsAlike(c: Expr, r: Row, s: Row, main: string)
    requires c.Col?
  {
    M.KeyOf(IdOf([c], main), DocOf(r, main)) == M.KeyOf(IdOf([c], main), DocOf(s, main))
    <==> KeyOfRow([c], r, main) == KeyOfRow([c], s, main)
  }

  /** GROUP BY one column makes SQL's groups exactly if no row lacks the field while another holds an explicit NULL there. */
  lemma {:induction false} AbsentKeyExactly(c: Expr, rows: seq<Row>, main: string)
    requires c.Col? && PlainColumn(c.qual, c.name) && GoodName(main)
    requires forall row :: row in rows ==> WellFormed(row, main) && Readable(row, main, c.qual, c.name)
    ensures (forall r, s :: r in rows && s in rows ==> GroupsAlike(c, r, s, main))
            <==> !((exists r :: r in rows && KeyValueIn(c, r, main) == Missing)
                   && exists s :: s in rows && KeyValueIn(c, s, main) == Null)
  {
    forall r, s | r in rows && s in rows
      ensures GroupsAlike(c, r, s, main)
              <==> !(KeyValueIn(c, r, main) != KeyValueIn(c, s, main)
                     && NullOf(KeyValueIn(c, r, main)) == NullOf(KeyValueIn(c, s, main)))
    {
      OneKey(c, r, main);
      OneKey(c, s, main);
      KeysDiffer(c.name, KeyValueIn(c, r, main), KeyValueIn(c, s, main));
    }
  }

  lemma {:induction false} KeysDiffer(n: string, v: Value, w: Value)
    ensures Doc(if v == Missing then map[] else map[n := v]) == Doc(if w == Missing then map[] else map[n := w]) <==> v == w
  {
    var a: Document, b: Document := if v == Missing then map[] else map[n := v], if w == Missing then map[] else map[n := w];
    assert n in a <==> v != Missing;
    assert n in b <==> w != Missing;
    if a == b && v != Missing {
      assert a[n] == b[n];
    }
  }

  /** The key a $group computes is the row's key. */
  lemma {:induction false} GroupKey(groupBy: seq<Expr>, row: Row, main: string)
    requires AllCols(groupBy) && KeyPresent(groupBy, row, main)
    ensures M.KeyOf(IdOf(groupBy, main), DocOf(row, main)) == KeyValue(groupBy, KeyOfRow(groupBy, row, main))
  {
    if groupBy != [] {
      KeyFields(groupBy, row, main);
      KeyRead(IdFields(groupBy, main), KeyDoc(groupBy, KeyOfRow(groupBy, row, main)), row, main);
    }
  }

  lemma {:induction false} KeyDocAt(groupBy: seq<Expr>, key: seq<Value>, i: nat)
    requires AllCols(groupBy) && DistinctCols(groupBy) && |key| == |groupBy| && i < |groupBy|
    ensures groupBy[i].name in KeyDoc(groupBy, key) && KeyDoc(groupBy, key)[groupBy[i].name] == key[i]
  {
    var n := |groupBy| - 1;
    assert forall j :: 0 <= j < n ==> groupBy[..n][j] == groupBy[j];
    if i < n {
      KeyDocAt(groupBy[..n], key[..n], i);
    }
  }

  lemma {:induction false} KeyDocNames(groupBy: seq<Expr>, key: seq<Value>)
    requires AllCols(groupBy) && |key| == |groupBy|
    ensures forall n :: n in KeyDoc(groupBy, key) <==> HasName(groupBy, n)
  {
    if groupBy != [] {
      var k := |groupBy| - 1;
      KeyDocNames(groupBy[..k], key[..k]);
      forall n
        ensures n in KeyDoc(groupBy, key) <==> HasName(groupBy, n)
      {
        assert HasName(groupBy, n) <==> n == groupBy[k].name || HasName(groupBy[..k], n) by {
          assert forall i :: 0 <= i < k ==> groupBy[..k][i] == groupBy[i];
        }
      }
    }
  }

  lemma {:induction false} KeyValueInjective(groupBy: seq<Expr>, a: seq<Value>, b: seq<Value>)
    requires AllCols(groupBy) && DistinctCols(groupBy) && |a| == |b| == |groupBy|
    requires KeyValue(groupBy, a) == KeyValue(groupBy, b)
    ensures a == b
  {
    forall i | 0 <= i < |a|
      ensures a[i] == b[i]
    {
      KeyDocAt(groupBy, a, i);
      KeyDocAt(groupBy, b, i);
    }
  }

  // ----- SQL's groups -----

  datatype GroupOf = GroupOf(key: seq<Value>, members: seq<Row>)

  function HasKey(groupBy: seq<Expr>, key: seq<Value>, main: string): Row -> bool
    requires AllCols(groupBy)
  {
    (row: Row) => KeyOfRow(groupBy, row, main) == key
  }

  function MakeGroup(groupBy: seq<Expr>, rows: seq<Row>, main: string): seq<Value> -> GroupOf
    requires AllCols(groupBy)
  {
    (key: seq<Value>) => GroupOf(key, Seqs.Filter(HasKey(groupBy, key, main), rows))
  }

  /** One group per distinct key; without GROUP BY one group, even of no rows. */
  function GroupsOf(groupBy: seq<Expr>, rows: seq<Row>, main: string): seq<GroupOf>
    requires AllCols(groupBy)
  {
    if groupBy == [] then [GroupOf([], rows)]
    else Seqs.Map(MakeGroup(groupBy, rows, main), Seqs.Distinct(Seqs.Map(KeyReader(groupBy, main), rows)))
  }

  /** A group's output row: its key and its aggregates. */
  ghost function OutRow(groupBy: seq<Expr>, outputs: map<string, AggSpec>, g: GroupOf, main: string): Document
    requires AllCols(groupBy)
  {
    (if |g.key| == |groupBy| then KeyDoc(groupBy, g.key) else map[])
    + map n | n in outputs :: SqlAgg(outputs[n], g.members, main)
  }

  ghost function OutRows(groupBy: seq<Expr>, outputs: map<string, AggSpec>, main: string): GroupOf -> Document
    requires AllCols(groupBy)
  {
    (g: GroupOf) => OutRow(groupBy, outputs, g, main)
  }

  // ----- one group -----

  /** Output names are usable and not those of grouping columns or `_id`. */
  predicate GoodOutputs(groupBy: seq<Expr>, outputs: map<string, AggSpec>, main: string)
    requires AllCols(groupBy)
  {
    DistinctCols(groupBy) && AllAccumulate(outputs, main) && (groupBy != [] || outputs != map[])
    && forall n :: n in outputs ==> GoodName(n) && n != "_id" && !HasName(groupBy, n)
  }

  predicate GroupSafe(outputs: map<string, AggSpec>, members: seq<Row>, main: string) {
    forall n :: n in outputs ==> AggSafe(outputs[n], members, main)
  }

  lemma {:induction false} KeyProjectionAt(groupBy: seq<Expr>)
    requires AllCols(groupBy)
    ensures var p := KeyProjection(groupBy);
            (forall n :: n in p <==> n == "_id" || HasName(groupBy, n))
            && (forall n :: HasName(groupBy, n) ==> p[n] == M.Computed(Ref("_id." + n)))
            && (!HasName(groupBy, "_id") ==> p["_id"] == M.Exclude)
  {
    if groupBy != [] {
      var k := |groupBy| - 1;
      KeyProjectionAt(groupBy[..k]);
      forall n
        ensures HasName(groupBy, n) <==> n == groupBy[k].name || HasName(groupBy[..k], n)
      {
        assert forall i :: 0 <= i < k ==> groupBy[..k][i] == groupBy[i];
      }
    }
  }

  lemma {:induction false} KeyFieldRead(n: string, d: Document, key: Document)
    requires GoodName(n) && "_id" in d && d["_id"] == Doc(key)
    ensures M.ValueOf(Ref("_id." + n), d, map[]) == if n in key then key[n] else Missing
  {
    assert DotFree("_id");
    GetQualified(d, "_id", n);
    assert "_id." + n == "_id" + "." + n;
    assert ("$" + ("_id." + n))[1..] == "_id." + n;
  }

  /** What $group makes of a group. */
  function Grouped(groupBy: seq<Expr>, outputs: map<string, AggSpec>, g: GroupOf, main: string): Document
    requires AllCols(groupBy) && |g.key| == |groupBy| && AllAccumulate(outputs, main)
  {
    M.GroupDoc(M.GroupSpec(IdOf(groupBy, main), Accs(outputs, main)), KeyValue(groupBy, g.key),
               Seqs.Map(AsJoined(main), g.members))
  }

  /** The $project after $group gives the output row of the group. */
  lemma {:induction false} GroupRow(groupBy: seq<Expr>, outputs: map<string, AggSpec>, g: GroupOf, main: string)
    requires AllCols(groupBy) && |g.key| == |groupBy| && g.members != []
    requires GoodOutputs(groupBy, outputs, main) && GroupSafe(outputs, g.members, main)
    requires forall v :: v in g.key ==> v != Missing
    ensures M.ProjectDoc(ProjectSpec(groupBy, outputs), Grouped(groupBy, outputs, g, main))
            == OutRow(groupBy, outputs, g, main)
  {
    var spec, d := ProjectSpec(groupBy, outputs), Grouped(groupBy, outputs, g, main);
    var out := OutRow(groupBy, outputs, g, main);
    SpecKeeps(groupBy, outputs);
    OutNames(groupBy, outputs, g, main);
    forall n | n in spec
      ensures FieldExact(spec, d, out, n)
    {
      SpecField(groupBy, outputs, g, main, n);
    }
    ProjectExact(spec, d, out);
  }

  lemma {:induction false} OutNames(groupBy: seq<Expr>, outputs: map<string, AggSpec>, g: GroupOf, main: string)
    requires AllCols(groupBy) && |g.key| == |groupBy|
    ensures "_id" in ProjectSpec(groupBy, outputs)
    ensures OutRow(groupBy, outputs, g, main).Keys <= ProjectSpec(groupBy, outputs).Keys
  {
    KeyProjectionAt(groupBy);
    KeyDocNames(groupBy, g.key);
  }

  /** One field of a projection is that of the document wanted. */
  predicate FieldExact(spec: map<string, M.Projected>, d: Document, out: Document, n: string) {
    n in spec
    && M.ProjectedValue(spec[n], n, d) == (if n in out then out[n] else Missing)
    && (n in out ==> out[n] != Missing)
  }

  lemma {:induction false} ProjectExact(spec: map<string, M.Projected>, d: Document, out: Document)
    requires M.KeepsOnly(spec) && "_id" in spec && out.Keys <= spec.Keys
    requires forall n :: n in spec ==> FieldExact(spec, d, out, n)
    ensures M.ProjectDoc(spec, d) == out
  {
    var p := M.ProjectDoc(spec, d);
    forall n
      ensures n in p <==> n in out
      ensures n in p ==> p[n] == out[n]
    {
      if n in spec {
        assert FieldExact(spec, d, out, n);
      }
    }
  }

  lemma {:induction false} SpecKeeps(groupBy: seq<Expr>, outputs: map<string, AggSpec>)
    requires AllCols(groupBy) && (groupBy != [] || outputs != map[])
    ensures M.KeepsOnly(ProjectSpec(groupBy, outputs))
  {
    var spec := ProjectSpec(groupBy, outputs);
    KeyProjectionAt(groupBy);
    if outputs != map[] {
      var n :| n in outputs;
      assert spec[n] == ProjectionOf(outputs[n], n);
    } else {
      assert HasName(groupBy, groupBy[0].name);
      assert spec[groupBy[0].name] != M.Exclude;
    }
  }

  lemma {:induction false} KeyDocPresent(groupBy: seq<Expr>, key: seq<Value>)
    requires AllCols(groupBy) && |key| == |groupBy| && forall v :: v in key ==> v != Missing
    ensures forall n :: n in KeyDoc(groupBy, key) ==> KeyDoc(groupBy, key)[n] != Missing
  {
    if groupBy != [] {
      var k := |groupBy| - 1;
      assert key[k] in key && forall v :: v in key[..k] ==> v in key;
      KeyDocPresent(groupBy[..k], key[..k]);
    }
  }

  lemma {:induction false} AggField(groupBy: seq<Expr>, outputs: map<string, AggSpec>, g: GroupOf, main: string, n: string)
    requires AllCols(groupBy) && |g.key| == |groupBy| && g.members != [] && n in outputs
    requires GoodOutputs(groupBy, outputs, main) && GroupSafe(outputs, g.members, main)
    ensures M.ProjectedValue(ProjectionOf(outputs[n], n), n, Grouped(groupBy, outputs, g, main))
            == SqlAgg(outputs[n], g.members, main) != Missing
  {
    OutputField(outputs[n], n, Grouped(groupBy, outputs, g, main), g.members, main);
    AggregatePresent(outputs[n], g.members, main);
  }

  lemma {:induction false} KeyField(groupBy: seq<Expr>, outputs: map<string, AggSpec>, g: GroupOf, main: string, n: string)
    requires AllCols(groupBy) && |g.key| == |groupBy| && HasName(groupBy, n) && GoodOutputs(groupBy, outputs, main)
    requires forall v :: v in g.key ==> v != Missing
    ensures n in KeyDoc(groupBy, g.key)
    ensures M.ProjectedValue(M.Computed(Ref("_id." + n)), n, Grouped(groupBy, outputs, g, main))
            == KeyDoc(groupBy, g.key)[n] != Missing
  {
    KeyDocNames(groupBy, g.key);
    KeyDocPresent(groupBy, g.key);
    KeyFieldRead(n, Grouped(groupBy, outputs, g, main), KeyDoc(groupBy, g.key));
  }

  lemma {:induction false} SpecField(groupBy: seq<Expr>, outputs: map<string, AggSpec>, g: GroupOf, main: string, n: string)
    requires AllCols(groupBy) && |g.key| == |groupBy| && g.members != []
    requires GoodOutputs(groupBy, outputs, main) && GroupSafe(outputs, g.members, main)
    requires forall v :: v in g.key ==> v != Missing
    requires n in ProjectSpec(groupBy, outputs)
    ensures FieldExact(ProjectSpec(groupBy, outputs), Grouped(groupBy, outputs, g, main),
                       OutRow(groupBy, outputs, g, main), n)
  {
    KeyProjectionAt(groupBy);
    KeyDocNames(groupBy, g.key);
    if n in outputs {
      AggField(groupBy, outputs, g, main, n);
    } else if HasName(groupBy, n) {
      KeyField(groupBy, outputs, g, main, n);
    }
  }

  // ----- all groups -----

  function KeyMaker(groupBy: seq<Expr>): seq<Value> -> Value
    requires AllCols(groupBy)
  {
    (key: seq<Value>) => if |key| == |groupBy| then KeyValue(groupBy, key) else Null
  }

  /** What grouping asks of the rows. */
  predicate RowsFit(groupBy: seq<Expr>, outputs: map<string, AggSpec>, rows: seq<Row>, main: string)
    requires AllCols(groupBy)
  {
    GoodOutputs(groupBy, outputs, main)
    && (forall row :: row in rows ==> KeyPresent(groupBy, row, main))
    && (forall g :: g in GroupsOf(groupBy, rows, main) ==> GroupSafe(outputs, g.members, main))
  }

  lemma {:induction false} ColumnNeverMissing(row: Row, main: string, q: string, n: string)
    ensures EnvOf(row, main).col(q, n) != Missing
  {
  }

  /** A key holds NULLs, but nothing absent. */
  lemma {:induction false} KeyScalars(groupBy: seq<Expr>, row: Row, main: string)
    requires AllCols(groupBy)
    ensures forall v :: v in KeyOfRow(groupBy, row, main) ==> v != Missing
  {
    if groupBy != [] {
      var c := groupBy[|groupBy| - 1];
      KeyScalars(groupBy[..|groupBy| - 1], row, main);
      ColumnNeverMissing(row, main, c.qual, c.name);
    }
  }

  lemma {:induction false} KeysOfDocs(groupBy: seq<Expr>, rows: seq<Row>, main: string)
    requires AllCols(groupBy) && DistinctCols(groupBy)
    requires forall row :: row in rows ==> KeyPresent(groupBy, row, main)
    ensures Seqs.Distinct(Seqs.Map(M.KeyFinder(IdOf(groupBy, main)), Seqs.Map(AsJoined(main), rows)))
            == Seqs.Map(KeyMaker(groupBy), Seqs.Distinct(Seqs.Map(KeyReader(groupBy, main), rows)))
  {
    var id := IdOf(groupBy, main);
    var keys := Seqs.Map(KeyReader(groupBy, main), rows);
    var found := Seqs.Map(M.KeyFinder(id), Seqs.Map(AsJoined(main), rows));
    forall i | 0 <= i < |rows|
      ensures found[i] == Seqs.Map(KeyMaker(groupBy), keys)[i]
    {
      assert rows[i] in rows;
      GroupKey(groupBy, rows[i], main);
    }
    assert found == Seqs.Map(KeyMaker(groupBy), keys);
    forall a, b | a in keys && b in keys && KeyMaker(groupBy)(a) == KeyMaker(groupBy)(b)
      ensures a == b
    {
      KeyValueInjective(groupBy, a, b);
    }
    Seqs.DistinctMap(KeyMaker(groupBy), keys);
  }

  lemma {:induction false} MembersOfDocs(groupBy: seq<Expr>, key: seq<Value>, rows: seq<Row>, main: string)
    requires AllCols(groupBy) && DistinctCols(groupBy) && |key| == |groupBy|
    requires forall row :: row in rows ==> KeyPresent(groupBy, row, main)
    ensures Seqs.Filter(M.InGroup(IdOf(groupBy, main), KeyValue(groupBy, key)), Seqs.Map(AsJoined(main), rows))
            == Seqs.Map(AsJoined(main), Seqs.Filter(HasKey(groupBy, key, main), rows))
  {
    forall row | row in rows
      ensures HasKey(groupBy, key, main)(row)
              == M.InGroup(IdOf(groupBy, main), KeyValue(groupBy, key))(AsJoined(main)(row))
    {
      GroupKey(groupBy, row, main);
      if KeyValue(groupBy, KeyOfRow(groupBy, row, main)) == KeyValue(groupBy, key) {
        KeyValueInjective(groupBy, KeyOfRow(groupBy, row, main), key);
      }
    }
    Seqs.FilterMap(M.InGroup(IdOf(groupBy, main), KeyValue(groupBy, key)), AsJoined(main),
                   HasKey(groupBy, key, main), rows);
  }

  function SpecOf(groupBy: seq<Expr>, outputs: map<string, AggSpec>, main: string): M.GroupSpec
    requires AllCols(groupBy) && AllAccumulate(outputs, main)
  {
    M.GroupSpec(IdOf(groupBy, main), Accs(outputs, main))
  }

  /** One key's group, grouped and projected. */
  lemma {:induction false} OneGroup(groupBy: seq<Expr>, outputs: map<string, AggSpec>, key: seq<Value>, rows: seq<Row>, main: string)
    requires AllCols(groupBy) && groupBy != [] && RowsFit(groupBy, outputs, rows, main)
    requires key in Seqs.Map(KeyReader(groupBy, main), rows)
    ensures M.ProjectDoc(ProjectSpec(groupBy, outputs),
                         M.GroupMaker(SpecOf(groupBy, outputs, main), Seqs.Map(AsJoined(main), rows))(KeyMaker(groupBy)(key)))
            == OutRow(groupBy, outputs, MakeGroup(groupBy, rows, main)(key), main)
  {
    var keys := Seqs.Map(KeyReader(groupBy, main), rows);
    var i :| 0 <= i < |keys| && keys[i] == key;
    assert rows[i] in rows && HasKey(groupBy, key, main)(rows[i]);
    var g := MakeGroup(groupBy, rows, main)(key);
    assert rows[i] in g.members;
    KeyScalars(groupBy, rows[i], main);
    MembersOfDocs(groupBy, key, rows, main);
    GroupInGroups(groupBy, key, rows, main);
    GroupRow(groupBy, outputs, g, main);
  }

  lemma {:induction false} GroupInGroups(groupBy: seq<Expr>, key: seq<Value>, rows: seq<Row>, main: string)
    requires AllCols(groupBy) && groupBy != [] && key in Seqs.Map(KeyReader(groupBy, main), rows)
    ensures MakeGroup(groupBy, rows, main)(key) in GroupsOf(groupBy, rows, main)
  {
    var ks := Seqs.Distinct(Seqs.Map(KeyReader(groupBy, main), rows));
    var i :| 0 <= i < |ks| && ks[i] == key;
    assert GroupsOf(groupBy, rows, main)[i] == MakeGroup(groupBy, rows, main)(key);
  }

  /** Groups as $group and $project make them, in the order keys appear. */
  lemma {:induction false} AllGroups(groupBy: seq<Expr>, outputs: map<string, AggSpec>, rows: seq<Row>, main: string)
    requires AllCols(groupBy) && groupBy != [] && RowsFit(groupBy, outputs, rows, main)
    ensures Seqs.Map(M.Projector(ProjectSpec(groupBy, outputs)),
                     M.GroupAll(SpecOf(groupBy, outputs, main), Seqs.Map(AsJoined(main), rows)))
            == Seqs.Map(OutRows(groupBy, outputs, main), GroupsOf(groupBy, rows, main))
  {
    var docs := Seqs.Map(AsJoined(main), rows);
    var g := SpecOf(groupBy, outputs, main);
    var keys := Seqs.Map(KeyReader(groupBy, main), rows);
    var ks := Seqs.Distinct(keys);
    KeysOfDocs(groupBy, rows, main);
    var left := Seqs.Map(M.Projector(ProjectSpec(groupBy, outputs)), M.GroupAll(g, docs));
    var right := Seqs.Map(OutRows(groupBy, outputs, main), GroupsOf(groupBy, rows, main));
    assert |left| == |ks| == |right|;
    forall i | 0 <= i < |ks|
      ensures left[i] == right[i]
    {
      assert ks[i] in keys;
      OneGroup(groupBy, outputs, ks[i], rows, main);
    }
    assert left == right;
  }
}
