/** Plain SELECTs become a Find; INSERT ... SELECT turns the Find into a pipeline (render_find.go, write.go). */
module InsertSelect {
  import opened Wrappers
  import opened Bson
  import opened Source
  import opened Select
  import opened Ordering
  import opened SortKeys
  import opened Stages
  import JoinTheorem
  import C = Compiler
  import W = Where
  import M = Mongo
  import Seqs

  datatype FindStmt = FindStmt(
    collection: string, filter: M.Filter, projection: map<string, M.Projected>, sort: seq<M.SortKey>,
    skip: nat, limit: nat, empty: bool, distinct: Option<string>)

  // ----- building a Find -----

  /** FieldRef.Path: the qualifier stays. */
  function FieldPath(q: string, n: string): string {
    if q == "" then n else if n == "" then q else q + "." + n
  }

  function ItemPaths(items: seq<SelectItem>): Result<seq<string>> {
    if items == [] then Success([])
    else
      var n := |items| - 1;
      var before :- ItemPaths(items[..n]);
      if items[n].FieldItem? then Success(before + [FieldPath(items[n].qual, items[n].name)])
      else Failure("unsupported select expression")
  }

  /** The fields asked for; `_id` goes unless it is one of them. */
  function FindProjection(paths: seq<string>): map<string, M.Projected> {
    var kept := map p | p in paths :: M.Include;
    if "_id" in paths then kept else kept["_id" := M.Exclude]
  }

  /** SELECT * hides `_id`. */
  function StarProjection(): map<string, M.Projected> {
    map["_id" := M.Exclude]
  }

  method BuildFindProjection(items: seq<SelectItem>, hasStar: bool) returns (r: Result<map<string, M.Projected>>)
    ensures hasStar ==> r == Success(StarProjection())
    ensures !hasStar && ItemPaths(items).Success? ==> r == Success(FindProjection(ItemPaths(items).value))
    ensures !hasStar && ItemPaths(items).Failure? ==> r.Failure?
  {
    if hasStar { return Success(map["_id" := M.Exclude]); }
    var projection: map<string, M.Projected> := map[];
    var askedForID := false;
    for i := 0 to |items|
      invariant ItemPaths(items[..i]).Success?
      invariant projection == map p | p in ItemPaths(items[..i]).value :: M.Include
      invariant askedForID <==> "_id" in ItemPaths(items[..i]).value
    {
      assert items[..i + 1][..i] == items[..i];
      if !items[i].FieldItem? {
        PathsFail(items, i + 1);
        return Failure("unsupported select expression");
      }
      var name := FieldPath(items[i].qual, items[i].name);
      projection := projection[name := M.Include];
      if name == "_id" { askedForID := true; }
    }
    assert items[..|items|] == items;
    if !askedForID {
      projection := projection["_id" := M.Exclude];
    }
    return Success(projection);
  }

  lemma {:induction false} PathsFail(items: seq<SelectItem>, i: nat)
    requires i <= |items| && ItemPaths(items[..i]).Failure?
    ensures ItemPaths(items).Failure?
    decreases |items| - i
  {
    if i == |items| {
      assert items[..i] == items;
    } else {
      assert items[..i + 1][..i] == items[..i];
      PathsFail(items, i + 1);
    }
  }

  /** ORDER BY, for a Find: columns only, qualifiers kept. */
  function FindSort(orders: seq<Order>): Result<seq<M.SortKey>> {
    if orders == [] then Success([])
    else
      var n := |orders| - 1;
      var before :- FindSort(orders[..n]);
      var e := orders[n].e;
      if e.Col? then Success(before + [M.SortKey(C.PathOf(e.qual, e.name, ""), orders[n].descending)])
      else Failure("ORDER BY only supports column references")
  }

  /** Which statement a SELECT becomes. */
  predicate UsesAggregation(q: Query, joins: seq<JoinPlan>) {
    var plan := PlanItemsOf(q.exprs);
    joins != [] || plan.hasAgg || q.groupBy.Some? || q.having.Some? || plan.hasExpr
    || (q.distinct && |plan.items| > 1)
  }

  function BuildFind(q: Query, main: SourceRef): Result<FindStmt> {
    var plan := PlanItemsOf(q.exprs);
    var filter :- if q.where_.Some? then W.TranslateWhere(q.where_.value) else Success(M.Everything);
    var sort :- FindSort(q.orderBy);
    var paths :- if plan.hasStar then Success([]) else ItemPaths(plan.items);
    var projection := if plan.hasStar then StarProjection() else FindProjection(paths);
    var limit := if q.limit.Some? && q.limit.value.count.Some? then q.limit.value.count.value else 0;
    Success(FindStmt(main.collection, filter, projection, sort, if q.limit.Some? then q.limit.value.offset else 0, limit,
                     q.limit.Some? && q.limit.value.count == Some(0),
                     if q.distinct && |plan.items| == 1 && !plan.hasStar then Some(paths[0]) else None))
  }

  // ----- what a Find returns -----

  /** Filter, sort, skip, limit (0 for none), and last the projection. */
  function FindDocs(f: FindStmt, coll: seq<Document>): seq<Document>
    requires f.distinct.None?
  {
    if f.empty then []
    else
      Seqs.Map(M.Projector(f.projection),
               Slice(f.skip, f.limit, M.SortDocs(f.sort, Seqs.Filter(M.Matcher(f.filter), coll))))
  }

  // ----- the conversion -----

  /** The pipeline of a Find. `order` is the order in which the map of sort keys lists them. */
  function PipelineOf(f: FindStmt, order: seq<M.SortKey>): seq<M.Stage> {
    ShowStages(f) + Tail(order, f.skip, f.limit)
  }

  function ShowStages(f: FindStmt): seq<M.Stage> {
    Optional(f.filter != M.Everything, M.Match(f.filter)) + [M.Project(f.projection)]
  }

  method ConvertFind(f: FindStmt, order: seq<M.SortKey>) returns (pipeline: seq<M.Stage>)
    ensures pipeline == PipelineOf(f, order)
  {
    pipeline := [];
    if f.filter != M.Everything { pipeline := pipeline + [M.Match(f.filter)]; }
    pipeline := pipeline + [M.Project(f.projection)];
    pipeline := AppendTail(pipeline, order, f.skip, f.limit);
  }

  // ----- the projection and the sort key -----

  /** The projection leaves a field as it is. */
  predicate KeepsField(spec: map<string, M.Projected>, path: string) {
    GoodName(path)
    && if path in spec then spec[path] == M.Include
       else if M.KeepsOnly(spec) then path == "_id" else true
  }

  lemma {:induction false} KeptField(spec: map<string, M.Projected>, path: string, d: Document)
    requires KeepsField(spec, path)
    ensures NullOf(Get(M.ProjectDoc(spec, d), path)) == NullOf(Get(d, path))
  {
    GetName(d, path);
    GetName(M.ProjectDoc(spec, d), path);
  }

  predicate KeepsKeys(spec: map<string, M.Projected>, keys: seq<M.SortKey>) {
    forall i :: 0 <= i < |keys| ==> KeepsField(spec, keys[i].path)
  }

  lemma {:induction false} ProjectionCarries(spec: map<string, M.Projected>, keys: seq<M.SortKey>, docs: seq<Document>)
    requires KeepsKeys(spec, keys)
    ensures Carries(M.Comes(keys), M.Comes(keys), M.Projector(spec), docs)
  {
    forall a, b | a in docs && b in docs
      ensures M.Before(keys, M.Projector(spec)(a), M.Projector(spec)(b)) == M.Before(keys, a, b)
    {
      forall i | 0 <= i < |keys|
        ensures NullOf(Get(M.ProjectDoc(spec, a), keys[i].path)) == NullOf(Get(a, keys[i].path))
        ensures NullOf(Get(M.ProjectDoc(spec, b), keys[i].path)) == NullOf(Get(b, keys[i].path))
      {
        KeptField(spec, keys[i].path, a);
        KeptField(spec, keys[i].path, b);
      }
      BeforeSees(keys, M.ProjectDoc(spec, a), M.ProjectDoc(spec, b), a, b);
    }
  }

  // ----- running the pipeline -----

  function Shown(f: FindStmt, coll: seq<Document>): seq<Document> {
    Seqs.Map(M.Projector(f.projection), Seqs.Filter(M.Matcher(f.filter), coll))
  }

  lemma {:induction false} ShownRun(f: FindStmt, coll: seq<Document>, db: M.Database)
    ensures M.Run(ShowStages(f), coll, db) == Shown(f, coll)
  {
    var match_ := Optional(f.filter != M.Everything, M.Match(f.filter));
    assert ShowStages(f) == match_ + Optional(true, M.Project(f.projection));
    OptionalRun(match_, true, M.Project(f.projection), coll, db);
    MatchRun(f, coll, db);
  }

  lemma {:induction false} MatchRun(f: FindStmt, coll: seq<Document>, db: M.Database)
    ensures M.Run(Optional(f.filter != M.Everything, M.Match(f.filter)), coll, db) == Seqs.Filter(M.Matcher(f.filter), coll)
  {
    if f.filter == M.Everything {
      EverythingPasses(coll);
    } else {
      assert [M.Match(f.filter)][1..] == [];
    }
  }

  lemma {:induction false} PipelineRun(f: FindStmt, order: seq<M.SortKey>, coll: seq<Document>, db: M.Database)
    ensures M.Run(PipelineOf(f, order), coll, db) == Slice(f.skip, f.limit, InOrder(order, Shown(f, coll)))
  {
    JoinTheorem.RunAppend(ShowStages(f), Tail(order, f.skip, f.limit), coll, db);
    ShownRun(f, coll, db);
    TailRun(order, f.skip, f.limit, Shown(f, coll), db);
  }

  lemma {:induction false} EverythingPasses(docs: seq<Document>)
    ensures Seqs.Filter(M.Matcher(M.Everything), docs) == docs
  {
    if docs != [] {
      EverythingPasses(docs[1..]);
      assert docs == [docs[0]] + docs[1..];
    }
  }

  // ----- the conversion is right, and where it is not -----

  /** The pipeline returns the Find's rows in the Find's order. */
  lemma {:induction false} ConversionCorrect(f: FindStmt, order: seq<M.SortKey>, coll: seq<Document>, db: M.Database)
    requires f.distinct.None? && !f.empty && order == f.sort && KeepsKeys(f.projection, f.sort)
    ensures M.Run(PipelineOf(f, order), coll, db) == FindDocs(f, coll)
  {
    var kept := Seqs.Filter(M.Matcher(f.filter), coll);
    PipelineRun(f, order, coll, db);
    SliceMap(M.Projector(f.projection), f.skip, f.limit, M.SortDocs(f.sort, kept));
    ProjectionCarries(f.projection, f.sort, kept);
    SortMap(M.Comes(f.sort), M.Comes(f.sort), M.Projector(f.projection), kept);
    if f.sort == [] { NoKeysNoSort(kept); }
  }

  /** A map has but one way to list at most one key. */
  lemma {:induction false} OneKeyOneOrder(sort: seq<M.SortKey>, order: seq<M.SortKey>)
    requires |sort| <= 1 && multiset(order) == multiset(sort)
    ensures order == sort
  {
    assert |order| == |multiset(order)| == |sort|;
    if order != [] {
      assert order[0] in multiset(order);
    }
  }

  /** An explicit LIMIT 0 is lost: right, that is no row, exactly if there were none. */
  lemma {:induction false} LimitZeroExactly(f: FindStmt, order: seq<M.SortKey>, coll: seq<Document>, db: M.Database)
    requires f.limit == 0
    ensures M.Run(PipelineOf(f, order), coll, db) == [] <==> |Seqs.Filter(M.Matcher(f.filter), coll)| <= f.skip
  {
    PipelineRun(f, order, coll, db);
  }

  /** What a Find's projection is made of. */
  predicate PlainProjection(spec: map<string, M.Projected>) {
    forall n :: n in spec ==> spec[n] == M.Include || spec[n] == M.Exclude
  }

  lemma {:induction false} DroppedField(spec: map<string, M.Projected>, path: string, d: Document)
    requires PlainProjection(spec) && GoodName(path) && !KeepsField(spec, path)
    ensures path !in M.ProjectDoc(spec, d)
  {
  }

  /** Two documents that pass, that the key puts in order, and that look different once projected. */
  predicate TellsApart(f: FindStmt, a: Document, b: Document) {
    M.Matches(f.filter, a) && M.Matches(f.filter, b) && M.Before(f.sort, b, a)
    && M.ProjectDoc(f.projection, a) != M.ProjectDoc(f.projection, b)
  }

  /** A sort that the projection does not show. */
  lemma {:induction false} InsertUnseen(before: (Document, Document) -> bool, g: Document -> Document, x: Document, s: seq<Document>)
    requires forall y :: y in s && before(y, x) ==> g(y) == g(x)
    ensures Seqs.Map(g, InsertBy(before, x, s)) == [g(x)] + Seqs.Map(g, s)
  {
    if s != [] && before(s[0], x) {
      assert s[0] in s;
      InsertUnseen(before, g, x, s[1..]);
      assert InsertBy(before, x, s) == [s[0]] + InsertBy(before, x, s[1..]);
      assert Seqs.Map(g, InsertBy(before, x, s)) == [g(s[0])] + ([g(x)] + Seqs.Map(g, s[1..]));
      assert Seqs.Map(g, s) == [g(s[0])] + Seqs.Map(g, s[1..]);
    }
  }

  lemma {:induction false} SortUnseen(before: (Document, Document) -> bool, g: Document -> Document, s: seq<Document>)
    requires forall x, y :: x in s && y in s && before(y, x) ==> g(y) == g(x)
    ensures Seqs.Map(g, SortBy(before, s)) == Seqs.Map(g, s)
  {
    if s != [] {
      TailIn(s);
      SortHolds(before, s[1..]);
      SortUnseen(before, g, s[1..]);
      InsertUnseen(before, g, s[0], SortBy(before, s[1..]));
    }
  }

  /** Once the key is dropped, $sort leaves the documents as they come. */
  lemma {:induction false} DroppedKeyStays(f: FindStmt, docs: seq<Document>)
    requires |f.sort| == 1 && PlainProjection(f.projection) && GoodName(f.sort[0].path) && !KeepsField(f.projection, f.sort[0].path)
    ensures M.SortDocs(f.sort, Seqs.Map(M.Projector(f.projection), docs)) == Seqs.Map(M.Projector(f.projection), docs)
  {
    var key, shown := f.sort[0], Seqs.Map(M.Projector(f.projection), docs);
    assert f.sort == [key];
    forall x, y | x in shown && y in shown
      ensures !M.Comes(f.sort)(x, y)
    {
      var i :| 0 <= i < |docs| && shown[i] == x;
      var j :| 0 <= j < |docs| && shown[j] == y;
      DroppedField(f.projection, key.path, docs[i]);
      DroppedField(f.projection, key.path, docs[j]);
      GetName(x, key.path);
      GetName(y, key.path);
      BeforeOne(key, x, y);
    }
    NeverBefore(M.Comes(f.sort), shown);
  }

  function Repeated(d: Document, n: nat): (s: seq<Document>)
    ensures |s| == n && forall x :: x in s ==> x == d
  {
    if n == 0 then [] else [d] + Repeated(d, n - 1)
  }

  lemma {:induction false} BeforeStrict(key: M.SortKey, a: Document, b: Document)
    ensures !M.Before([key], a, a) && !(M.Before([key], a, b) && M.Before([key], b, a))
  {
    var x, y := NullOf(Get(a, key.path)), NullOf(Get(b, key.path));
    BeforeOne(key, a, a);
    BeforeOne(key, a, b);
    BeforeOne(key, b, a);
    if x.Str? { StrLessTrichotomy(x.s, if y.Str? then y.s else x.s); }
  }

  lemma {:induction false} RepeatedSorts(key: M.SortKey, a: Document, b: Document, n: nat)
    requires M.Before([key], b, a)
    ensures M.SortDocs([key], Repeated(b, n) + [a, b]) == Repeated(b, n) + [b, a]
  {
    var c := M.Comes([key]);
    if n == 0 {
      SortTwo(key, a, b);
      assert Repeated(b, 0) + [a, b] == [a, b] && Repeated(b, 0) + [b, a] == [b, a];
    } else {
      RepeatedSorts(key, a, b, n - 1);
      BeforeStrict(key, b, a);
      var s, t := Repeated(b, n - 1) + [a, b], Repeated(b, n - 1) + [b, a];
      assert Repeated(b, n) + [a, b] == [b] + s && ([b] + s)[1..] == s;
      assert Repeated(b, n) + [b, a] == [b] + t;
      assert t[0] == b;
      assert InsertBy(c, b, t) == [b] + t;
    }
  }

  lemma {:induction false} SliceFirst(skip: nat, limit: nat, s: seq<Document>)
    requires skip < |s|
    ensures Slice(skip, limit, s) != [] && Slice(skip, limit, s)[0] == s[skip]
  {
  }

  lemma {:induction false} FirstMapped(g: Document -> Document, s: seq<Document>, t: seq<Document>, i: nat)
    requires i < |s| && i < |t| && g(s[i]) != g(t[i])
    ensures Seqs.Map(g, s)[i] != Seqs.Map(g, t)[i]
  {
  }

  /** Past the rows skipped, the Find returns the two one way round and the pipeline the other. */
  lemma {:induction false} DroppedKeyFails(f: FindStmt, a: Document, b: Document, db: M.Database)
    requires f.distinct.None? && !f.empty && |f.sort| == 1 && PlainProjection(f.projection) && GoodName(f.sort[0].path)
    requires !KeepsField(f.projection, f.sort[0].path) && TellsApart(f, a, b)
    ensures M.Run(PipelineOf(f, f.sort), Repeated(b, f.skip) + [a, b], db) != FindDocs(f, Repeated(b, f.skip) + [a, b])
  {
    var coll, g := Repeated(b, f.skip) + [a, b], M.Projector(f.projection);
    assert f.sort == [f.sort[0]];
    Seqs.FilterAll(M.Matcher(f.filter), coll);
    RepeatedSorts(f.sort[0], a, b, f.skip);
    PipelineRun(f, f.sort, coll, db);
    DroppedKeyStays(f, coll);
    var sorted := Repeated(b, f.skip) + [b, a];
    SliceMap(g, f.skip, f.limit, sorted);
    FirstMapped(g, coll, sorted, f.skip);
    SliceFirst(f.skip, f.limit, Seqs.Map(g, coll));
    SliceFirst(f.skip, f.limit, Seqs.Map(g, sorted));
  }

  /** With one sort key the conversion is right on every collection just when the key is kept, or never matters. */
  lemma {:induction false} ConversionExactly(f: FindStmt, db: M.Database)
    requires f.distinct.None? && !f.empty && |f.sort| == 1 && PlainProjection(f.projection) && GoodName(f.sort[0].path)
    ensures (forall coll :: M.Run(PipelineOf(f, f.sort), coll, db) == FindDocs(f, coll))
            <==> KeepsField(f.projection, f.sort[0].path) || forall a, b :: !TellsApart(f, a, b)
  {
    if KeepsField(f.projection, f.sort[0].path) {
      forall coll
        ensures M.Run(PipelineOf(f, f.sort), coll, db) == FindDocs(f, coll)
      {
        ConversionCorrect(f, f.sort, coll, db);
      }
    } else if forall a, b :: !TellsApart(f, a, b) {
      forall coll
        ensures M.Run(PipelineOf(f, f.sort), coll, db) == FindDocs(f, coll)
      {
        DroppedKeyUnseen(f, coll, db);
      }
    } else {
      var a, b :| TellsApart(f, a, b);
      DroppedKeyFails(f, a, b, db);
    }
  }

  lemma {:induction false} DroppedKeyUnseen(f: FindStmt, coll: seq<Document>, db: M.Database)
    requires f.distinct.None? && !f.empty && |f.sort| == 1 && PlainProjection(f.projection) && GoodName(f.sort[0].path)
    requires !KeepsField(f.projection, f.sort[0].path) && forall a, b :: !TellsApart(f, a, b)
    ensures M.Run(PipelineOf(f, f.sort), coll, db) == FindDocs(f, coll)
  {
    var kept, g := Seqs.Filter(M.Matcher(f.filter), coll), M.Projector(f.projection);
    PipelineRun(f, f.sort, coll, db);
    DroppedKeyStays(f, kept);
    forall x, y | x in kept && y in kept && M.Comes(f.sort)(y, x)
      ensures g(y) == g(x)
    {
      assert !TellsApart(f, x, y);
    }
    SortUnseen(M.Comes(f.sort), g, kept);
    SliceMap(g, f.skip, f.limit, M.SortDocs(f.sort, kept));
  }

  /** Without WHERE, two such documents are at hand as soon as any other field is kept. */
  lemma {:induction false} UnfilteredTellsApart(f: FindStmt, n: string)
    requires f.filter == M.Everything && |f.sort| == 1 && GoodName(f.sort[0].path)
    requires KeepsField(f.projection, n) && n != f.sort[0].path
    ensures exists a, b :: TellsApart(f, a, b)
  {
    var key := f.sort[0];
    var first, second := if key.descending then Num(1.0) else Num(2.0), if key.descending then Num(2.0) else Num(1.0);
    var a: Document, b: Document := map[key.path := first, n := Num(1.0)], map[key.path := second, n := Num(2.0)];
    assert f.sort == [key];
    BeforeOne(key, b, a);
    GetName(a, key.path);
    GetName(b, key.path);
    KeptField(f.projection, n, a);
    KeptField(f.projection, n, b);
    GetName(a, n);
    GetName(b, n);
    assert TellsApart(f, a, b);
  }

  // ----- the statement -----

  /** The projection of a select list keeps just the fields listed. */
  lemma {:induction false} ListedExactly(paths: seq<string>, path: string)
    requires paths != [] && GoodName(path)
    ensures KeepsField(FindProjection(paths), path) <==> path in paths
  {
    assert FindProjection(paths)[paths[0]] == M.Include;
  }

  /** ORDER BY at most one column, one of those selected. */
  predicate OrdersBySelected(q: Query, paths: seq<string>) {
    |q.orderBy| <= 1
    && forall o :: o in q.orderBy && o.e.Col? ==>
                     var path := C.PathOf(o.e.qual, o.e.name, "");
                     GoodName(path) && if PlanItemsOf(q.exprs).hasStar then path != "_id" else path in paths
  }

  lemma {:induction false} FindSortOne(o: Order)
    requires FindSort([o]).Success?
    ensures o.e.Col? && FindSort([o]).value == [M.SortKey(C.PathOf(o.e.qual, o.e.name, ""), o.descending)]
  {
    assert [o][..0] == [];
    assert FindSort([]) == Success([]);
  }

  /** The sort key, if there is one, is a field that the projection keeps. */
  lemma {:induction false} SelectedKeyKept(q: Query, main: SourceRef, paths: seq<string>)
    requires BuildFind(q, main).Success? && OrdersBySelected(q, paths)
    requires !PlanItemsOf(q.exprs).hasStar ==> ItemPaths(PlanItemsOf(q.exprs).items) == Success(paths) && paths != []
    ensures |BuildFind(q, main).value.sort| <= 1
    ensures KeepsKeys(BuildFind(q, main).value.projection, BuildFind(q, main).value.sort)
  {
    if q.orderBy != [] {
      var o := q.orderBy[0];
      assert q.orderBy == [o];
      FindSortOne(o);
      var path := C.PathOf(o.e.qual, o.e.name, "");
      assert o in q.orderBy;
      if !PlanItemsOf(q.exprs).hasStar {
        ListedExactly(paths, path);
      } else {
        assert KeepsField(StarProjection(), path);
      }
    }
  }

  /** INSERT ... SELECT of a plain SELECT inserts the rows the SELECT returns, in order. */
  lemma {:induction false} InsertSelectCorrect(q: Query, main: SourceRef, paths: seq<string>, order: seq<M.SortKey>, coll: seq<Document>,
                            db: M.Database)
    requires BuildFind(q, main).Success? && BuildFind(q, main).value.distinct.None?
    requires !PlanItemsOf(q.exprs).hasStar ==> ItemPaths(PlanItemsOf(q.exprs).items) == Success(paths) && paths != []
    requires OrdersBySelected(q, paths) && !(q.limit.Some? && q.limit.value.count == Some(0))
    requires multiset(order) == multiset(BuildFind(q, main).value.sort)
    ensures M.Run(PipelineOf(BuildFind(q, main).value, order), coll, db) == FindDocs(BuildFind(q, main).value, coll)
  {
    var f := BuildFind(q, main).value;
    SelectedKeyKept(q, main, paths);
    OneKeyOneOrder(f.sort, order);
    ConversionCorrect(f, order, coll, db);
  }
}
