/** Whole aggregate statements: projection, ORDER BY and LIMIT give SQL's result rows. */
module RenderTheorem {
  import opened Wrappers
  import opened Bson
  import opened Sql
  import opened Compiler
  import ValueTheorem
  import opened JoinTheorem
  import opened Select
  import HavingTheorem
  import Aggregates
  import opened GroupTheorem
  import opened QueryTheorem
  import opened Ordering
  import SortKeys
  import opened Stages
  import opened Render
  import M = Mongo
  import Source
  import Seqs

  // ----- the final projection -----

  function ProjectionFor(item: SelectItem, name: string, main: string): M.Projected {
    match item
    case FieldItem(q, c, _) =>
      if name == PathOf(q, c, main) then M.Include else M.Computed(Ref(PathOf(q, c, main)))
    case ExprItem(e, _) => if ToAgg(e, main).Success? then AsProjected(ToAgg(e, main).value) else M.Exclude
    case AggItem(_, _) => M.Exclude
  }

  /** The projection so far holds an entry for each item, `_id` apart. */
  predicate Projects(f: Final, items: seq<SelectItem>, main: string) {
    |f.names| == |items|
    && (forall i :: 0 <= i < |items| ==>
                      f.names[i] in f.spec && f.spec[f.names[i]] == ProjectionFor(items[i], f.names[i], main))
    && (forall n :: n in f.spec ==> n == "_id" || n in f.names)
    && (forall i :: 0 <= i < |items| && items[i].FieldItem? && f.names[i] == "_id" ==> f.askedForId)
    && (f.askedForId ==> "_id" in f.names)
  }

  lemma {:induction false} StepProjects(f: Final, items: seq<SelectItem>, item: SelectItem, main: string, print_: Expr -> string)
    requires Projects(f, items, main) && FinalStep(f, item, main, print_).Success?
    requires Seqs.NoDup(FinalStep(f, item, main, print_).value.names)
    ensures Projects(FinalStep(f, item, main, print_).value, items + [item], main)
  {
    var g := FinalStep(f, item, main, print_).value;
    var n := |f.names|;
    var name := g.names[n];
    assert g.names == f.names + [name] && name in g.names;
    assert forall m :: m in f.names ==> m in g.names;
    assert g.spec == f.spec[name := ProjectionFor(item, name, main)];
    forall i | 0 <= i < n
      ensures g.names[i] == f.names[i] != name
    {
    }
  }

  lemma {:induction false} NamesGrow(f: Final, item: SelectItem, main: string, print_: Expr -> string)
    requires FinalStep(f, item, main, print_).Success?
    requires Seqs.NoDup(FinalStep(f, item, main, print_).value.names)
    ensures Seqs.NoDup(f.names)
  {
    var g := FinalStep(f, item, main, print_).value;
    assert forall i :: 0 <= i < |f.names| ==> g.names[i] == f.names[i];
  }

  lemma {:induction false} FinalLast(items: seq<SelectItem>, main: string, print_: Expr -> string)
    requires items != [] && FinalOf(items, main, print_).Success?
    ensures FinalOf(items[..|items| - 1], main, print_).Success?
    ensures FinalOf(items, main, print_)
            == FinalStep(FinalOf(items[..|items| - 1], main, print_).value, items[|items| - 1], main, print_)
  {
  }

  lemma {:induction false} FinalProjects(items: seq<SelectItem>, main: string, print_: Expr -> string)
    requires FinalOf(items, main, print_).Success? && Seqs.NoDup(FinalOf(items, main, print_).value.names)
    ensures Projects(FinalOf(items, main, print_).value, items, main)
  {
    if items != [] {
      var before, item := items[..|items| - 1], items[|items| - 1];
      FinalLast(items, main, print_);
      NamesGrow(FinalOf(before, main, print_).value, item, main, print_);
      FinalProjects(before, main, print_);
      StepProjects(FinalOf(before, main, print_).value, before, item, main, print_);
      Snoc(items);
    }
  }

  lemma {:induction false} Snoc(items: seq<SelectItem>)
    requires items != []
    ensures items[..|items| - 1] + [items[|items| - 1]] == items
  {
  }

  predicate IsFlag(e: M.MExpr) {
    e.Const? && (e.v.Num? || e.v.Bool?)
  }

  /** A column of the row, or an expression that is safe for it and not a number or boolean constant. */
  predicate ItemFits(item: SelectItem, name: string, row: Row, main: string) {
    match item
    case FieldItem(q, n, _) =>
      Readable(row, main, q, n) && ValueTheorem.PlainColumn(q, n) && (name == "_id" ==> PathOf(q, n, main) == "_id")
    case ExprItem(e, _) =>
      ToAgg(e, main).Success? && ValueTheorem.Plain(e) && Aggregates.ArgSafe(e, row, main) && name != "_id" && !IsFlag(ToAgg(e, main).value)
    case AggItem(_, _) => false
  }

  predicate ItemsFit(items: seq<SelectItem>, names: seq<string>, row: Row, main: string) {
    WellFormed(row, main) && GoodName(main) && |names| == |items|
    && forall i :: 0 <= i < |items| ==> ItemFits(items[i], names[i], row, main)
  }

  /** Output names are usable and distinct, and `_id` is not the only one. */
  predicate GoodNames(names: seq<string>) {
    Seqs.NoDup(names) && (forall n :: n in names ==> GoodName(n)) && exists n :: n in names && n != "_id"
  }

  /** SQL's value of a select item for a row. */
  function RowValue(item: SelectItem, row: Row, main: string): Value {
    match item
    case FieldItem(q, n, _) => EnvOf(row, main).col(q, n)
    case ExprItem(e, _) => Aggregates.ArgReader(e, main)(row)
    case AggItem(_, _) => Null
  }

  /** What an entry of the projection reads from the document is what SQL sees. */
  lemma {:induction false} EntryReads(item: SelectItem, name: string, row: Row, main: string)
    requires WellFormed(row, main) && GoodName(main) && GoodName(name) && ItemFits(item, name, row, main)
    ensures ProjectionFor(item, name, main) != M.Exclude
    ensures NullOf(M.ProjectedValue(ProjectionFor(item, name, main), name, DocOf(row, main))) == RowValue(item, row, main)
  {
    var d := DocOf(row, main);
    match item
    case FieldItem(q, n, _) =>
      DocReads(row, main, q, n);
      ValueTheorem.RefReads(q, n, d, main, map[]);
      GetName(d, name);
    case ExprItem(e, _) => Aggregates.ArgRead(e, row, main);
  }

  lemma {:induction false} FinalKeeps(items: seq<SelectItem>, f: Final, row: Row, main: string)
    requires Projects(f, items, main) && GoodNames(f.names) && ItemsFit(items, f.names, row, main)
    ensures M.KeepsOnly(FinalSpec(f))
  {
    var n :| n in f.names && n != "_id";
    var i :| 0 <= i < |f.names| && f.names[i] == n;
    EntryReads(items[i], n, row, main);
    assert n in FinalSpec(f) && FinalSpec(f)[n] != M.Exclude;
  }

  lemma {:induction false} ShownField(spec: map<string, M.Projected>, name: string, d: Document)
    requires M.KeepsOnly(spec) && name in spec && GoodName(name)
    ensures NullOf(Get(M.ProjectDoc(spec, d), name)) == NullOf(M.ProjectedValue(spec[name], name, d))
  {
    GetName(M.ProjectDoc(spec, d), name);
  }

  lemma {:induction false} ShownId(spec: map<string, M.Projected>, d: Document)
    requires M.KeepsOnly(spec) && "_id" !in spec
    ensures NullOf(Get(M.ProjectDoc(spec, d), "_id")) == NullOf(Get(d, "_id"))
  {
    GetName(M.ProjectDoc(spec, d), "_id");
    GetName(d, "_id");
  }

  /** The projected document holds SQL's values under the output names. */
  lemma {:induction false} ProjectedItem(items: seq<SelectItem>, f: Final, row: Row, main: string, i: nat)
    requires Projects(f, items, main) && GoodNames(f.names) && ItemsFit(items, f.names, row, main) && i < |items|
    ensures NullOf(Get(M.ProjectDoc(FinalSpec(f), DocOf(row, main)), f.names[i])) == RowValue(items[i], row, main)
  {
    var name, d := f.names[i], DocOf(row, main);
    assert name in f.names && ItemFits(items[i], name, row, main);
    FinalKeeps(items, f, row, main);
    if name == "_id" {
      DocReads(row, main, items[i].qual, items[i].name);
      ShownId(FinalSpec(f), d);
    } else {
      assert FinalSpec(f)[name] == ProjectionFor(items[i], name, main);
      ShownField(FinalSpec(f), name, d);
      EntryReads(items[i], name, row, main);
    }
  }

  function ShownAs(names: seq<string>): Document -> seq<Value> {
    (d: Document) => Seqs.Map(FieldIn(d), names)
  }

  function FieldIn(d: Document): string -> Value {
    (n: string) => NullOf(Get(d, n))
  }

  function RowValues(items: seq<SelectItem>, main: string): Row -> seq<Value> {
    (row: Row) => Seqs.Map(ValueIn(row, main), items)
  }

  function ValueIn(row: Row, main: string): SelectItem -> Value {
    (item: SelectItem) => RowValue(item, row, main)
  }

  lemma {:induction false} ProjectedRow(items: seq<SelectItem>, f: Final, row: Row, main: string)
    requires Projects(f, items, main) && GoodNames(f.names) && ItemsFit(items, f.names, row, main)
    ensures ShownAs(f.names)(M.Projector(FinalSpec(f))(AsJoined(main)(row))) == RowValues(items, main)(row)
  {
    var out := M.ProjectDoc(FinalSpec(f), DocOf(row, main));
    var a, b := Seqs.Map(FieldIn(out), f.names), Seqs.Map(ValueIn(row, main), items);
    forall i | 0 <= i < |items|
      ensures a[i] == b[i]
    {
      ProjectedItem(items, f, row, main, i);
    }
    assert a == b;
  }

  lemma {:induction false} LeafOf(q: string, n: string)
    requires DotFree(q) && DotFree(n)
    ensures Leaf(q + "." + n) == n
  {
    var path := q + "." + n;
    FirstDotAt(q, n);
    assert path[|q|] == '.' && path[|q| + 1..] == n;
  }

  lemma {:induction false} FinalOfOne(a: SelectItem, main: string, print_: Expr -> string)
    ensures FinalOf([a], main, print_) == FinalStep(Final(map["_id" := M.Exclude], [], false), a, main, print_)
  {
    assert [a][..0] == [];
    assert FinalOf([], main, print_) == Success(Final(map["_id" := M.Exclude], [], false));
  }

  lemma {:induction false} FinalOfTwo(a: SelectItem, b: SelectItem, main: string, print_: Expr -> string)
    requires FinalOf([a], main, print_).Success?
    ensures FinalOf([a, b], main, print_) == FinalStep(FinalOf([a], main, print_).value, b, main, print_)
  {
    assert [a, b][..1] == [a];
  }

  /** A joined column without an alias is named by its leaf. */
  lemma {:induction false} JoinedName(q: string, x: string, main: string, taken: set<string>)
    requires GoodName(q) && GoodName(x) && q != main
    ensures PathOf(q, x, main) == q + "." + x && Leaf(q + "." + x) == x != q + "." + x
    ensures FieldName(PathOf(q, x, main), "", taken) == if x in taken && x != "_id" then Underscored(q + "." + x) else x
  {
    LeafOf(q, x);
  }

  // ----- ORDER BY, OFFSET and LIMIT -----

  function ByValue<A>(value: A -> Value, descending: bool): (A, A) -> bool {
    (a: A, b: A) => if descending then Less(value(b), value(a)) else Less(value(a), value(b))
  }

  /** SQL's order: by the value ordered by, NULL lowest, ties in the order they came in. */
  function SqlOrder<A>(orders: seq<Order>, value: A -> Value, s: seq<A>): seq<A> {
    if orders == [] then s else SortBy(ByValue(value, orders[0].descending), s)
  }

  lemma {:induction false} KeyCarries<A(!new)>(key: M.SortKey, value: A -> Value, f: A -> Document, s: seq<A>)
    requires forall a :: a in s ==> NullOf(Get(f(a), key.path)) == value(a)
    ensures Carries(ByValue(value, key.descending), M.Comes([key]), f, s)
  {
    forall a, b | a in s && b in s
      ensures M.Comes([key])(f(a), f(b)) == ByValue(value, key.descending)(a, b)
    {
      SortKeys.BeforeOne(key, f(a), f(b));
    }
  }

  /** The tail of the pipeline sorts and slices the rows that the documents stand for. */
  lemma {:induction false} TailCorrect<A(!new)>(orders: seq<Order>, keys: seq<M.SortKey>, value: A -> Value, f: A -> Document, s: seq<A>,
                             skip: nat, limit: nat, db: M.Database)
    requires |orders| == |keys| <= 1 && (keys != [] ==> keys[0].descending == orders[0].descending)
    requires keys != [] ==> forall a :: a in s ==> NullOf(Get(f(a), keys[0].path)) == value(a)
    ensures M.Run(Tail(keys, skip, limit), Seqs.Map(f, s), db) == Seqs.Map(f, Slice(skip, limit, SqlOrder(orders, value, s)))
  {
    TailRun(keys, skip, limit, Seqs.Map(f, s), db);
    SliceMap(f, skip, limit, SqlOrder(orders, value, s));
    if keys != [] {
      assert keys == [keys[0]];
      KeyCarries(keys[0], value, f, s);
      SortMap(ByValue(value, keys[0].descending), M.Comes(keys), f, s);
    }
  }

  /** OFFSET skips, LIMIT takes; LIMIT 0 is no rows. */
  function SqlLimited<A>(q: Query, s: seq<A>): seq<A> {
    match q.limit
    case None => s
    case Some(l) =>
      var rest := if l.offset <= |s| then s[l.offset..] else [];
      if l.count.Some? && l.count.value <= |rest| then rest[..l.count.value] else rest
  }

  lemma {:induction false} LimitedIs<A(!new)>(q: Query, s: seq<A>)
    ensures SqlLimited(q, s)
            == if q.limit.Some? && q.limit.value.count == Some(0) then [] else Slice(OffsetOf(q), LimitOf(q), s)
  {
  }

  lemma {:induction false} NoLimit<A(!new)>(q: Query, s: seq<A>)
    requires q.limit.None?
    ensures SqlLimited(q, s) == s
  {
  }

  /** How far LIMIT and OFFSET reach, the rows hold no duplicate; or they leave none. */
  predicate DistinctHarmless<A(==)>(q: Query, s: seq<A>) {
    (q.limit.Some? && q.limit.value.count == Some(0)) || OffsetOf(q) >= |s|
    || forall i, j :: 0 <= i < j < Reach(OffsetOf(q), LimitOf(q), s) ==> s[i] != s[j]
  }

  /** A SELECT DISTINCT whose rows are limited with their duplicates is right exactly then. */
  lemma {:induction false} LimitedDistinctExactly<A(!new)>(q: Query, s: seq<A>)
    ensures SqlLimited(q, s) == SqlLimited(q, Seqs.Distinct(s)) <==> DistinctHarmless(q, s)
  {
    DistinctSliceExactly(OffsetOf(q), LimitOf(q), s);
    var first := s[..Reach(OffsetOf(q), LimitOf(q), s)];
    assert Seqs.NoDup(first) <==> forall i, j :: 0 <= i < j < |first| ==> s[i] != s[j];
  }

  lemma {:induction false} LimitedMap<A(!new), B(!new)>(q: Query, f: A -> B, s: seq<A>)
    ensures Seqs.Map(f, SqlLimited(q, s)) == SqlLimited(q, Seqs.Map(f, s))
  {
    SliceMap(f, OffsetOf(q), LimitOf(q), s);
  }

  // ----- grouped statements -----

  /** ORDER BY names this item: by its output name, or by its expression if it has an alias. */
  predicate OrdersBy(e: Expr, item: SelectItem, main: string) {
    if e.Col? then e.qual in {"", main} && HavingTheorem.NameOf(item, main) == e.name
    else item.alias != "" && RawExpr(item) == e
  }

  function ItemOrdered(e: Expr, items: seq<SelectItem>, main: string): (item: Option<SelectItem>)
    ensures item.Some? ==> item.value in items && OrdersBy(e, item.value, main)
  {
    if items == [] then None
    else if OrdersBy(e, items[0], main) then Some(items[0])
    else ItemOrdered(e, items[1..], main)
  }

  lemma {:induction false} AliasOrdered(e: Expr, items: seq<SelectItem>, main: string)
    requires !e.Col? && ItemOrdered(e, items, main).Some?
    ensures AliasFor(e, items) == ItemOrdered(e, items, main).value.alias
  {
    if !OrdersBy(e, items[0], main) {
      AliasOrdered(e, items[1..], main);
    }
  }

  /** The path sorted by is the output name of the item ordered by. */
  lemma {:induction false} OrderPathNames(e: Expr, items: seq<SelectItem>, main: string)
    requires ItemOrdered(e, items, main).Some? && OrderPath(e, items, main).Success?
    requires forall item :: item in items ==> item.FieldItem? ==> item.alias == ""
    requires forall item :: item in items ==> !item.ExprItem?
    ensures OrderPath(e, items, main).value == HavingTheorem.NameOf(ItemOrdered(e, items, main).value, main)
  {
    if !e.Col? {
      AliasOrdered(e, items, main);
    }
  }

  /** At most one ORDER BY, naming a select item. */
  predicate OrdersByItem(q: Query, main: string) {
    |q.orderBy| <= 1
    && forall o :: o in q.orderBy ==> ItemOrdered(o.e, PlanItemsOf(q.exprs).items, main).Some?
  }

  ghost function GroupOrder(q: Query, main: string): GroupOf -> Value {
    (g: GroupOf) =>
      if q.orderBy != [] && ItemOrdered(q.orderBy[0].e, PlanItemsOf(q.exprs).items, main).Some?
      then SelectValue(ItemOrdered(q.orderBy[0].e, PlanItemsOf(q.exprs).items, main).value, g, main)
      else Null
  }

  lemma {:induction false} OrderKeysOne(orders: seq<Order>, items: seq<SelectItem>, main: string)
    requires |orders| <= 1 && OrderKeys(orders, items, main).Success?
    ensures var keys := OrderKeys(orders, items, main).value;
            |keys| == |orders|
            && (orders != [] ==> OrderPath(orders[0].e, items, main).Success?
                                 && keys[0] == M.SortKey(OrderPath(orders[0].e, items, main).value, orders[0].descending))
  {
    if orders != [] {
      assert orders[..0] == [];
      assert OrderKeys([], items, main) == Success([]);
    }
  }

  lemma {:induction false} GroupKeyReads(q: Query, groupBy: seq<Expr>, db: M.Database, g: GroupOf)
    requires Groups(q, groupBy) && QueryFits(q, PlanItemsOf(q.exprs).items, groupBy, db)
    requires q.orderBy != [] && OrdersByItem(q, MainAlias(q.from)) && g in SqlGroups(q, groupBy, db)
    requires OrderPath(q.orderBy[0].e, PlanItemsOf(q.exprs).items, MainAlias(q.from)).Success?
    ensures var items, main := PlanItemsOf(q.exprs).items, MainAlias(q.from);
            NullOf(Get(OutRow(groupBy, SelectedState(items, main).value.outputs, g, main),
                       OrderPath(q.orderBy[0].e, items, main).value))
            == GroupOrder(q, main)(g)
  {
    var items, main := PlanItemsOf(q.exprs).items, MainAlias(q.from);
    var e := q.orderBy[0].e;
    assert q.orderBy[0] in q.orderBy;
    GroupedItems(groupBy, items, main);
    OrderPathNames(e, items, main);
    GroupItemReads(q, groupBy, ItemOrdered(e, items, main).value, g, db);
  }

  lemma {:induction false} GroupedItems(groupBy: seq<Expr>, items: seq<SelectItem>, main: string)
    requires AllCols(groupBy) && GoodGrouping(groupBy, items, main)
    ensures forall item :: item in items ==> (item.FieldItem? ==> item.alias == "") && !item.ExprItem?
  {
    forall item | item in items
      ensures (item.FieldItem? ==> item.alias == "") && !item.ExprItem?
    {
      var i :| 0 <= i < |items| && items[i] == item;
      assert GoodItem(items[i], groupBy, main);
    }
  }

  /** A grouped statement: SQL's groups, ordered, and limited. */
  lemma {:induction false} GroupedStatementCorrect(q: Query, groupBy: seq<Expr>, print_: Expr -> string, db: M.Database)
    requires Groups(q, groupBy) && QueryFits(q, PlanItemsOf(q.exprs).items, groupBy, db)
    requires BuildAggregate(q, print_).Success? && OrdersByItem(q, MainAlias(q.from))
    ensures var items, main := PlanItemsOf(q.exprs).items, MainAlias(q.from);
            Seqs.Map(Observed(items, main), StatementDocs(BuildAggregate(q, print_).value, db))
            == Seqs.Map(SelectRow(items, main),
                        SqlLimited(q, SqlOrder(q.orderBy, GroupOrder(q, main), SqlGroups(q, groupBy, db))))
  {
    LimitedIs(q, SqlOrder(q.orderBy, GroupOrder(q, MainAlias(q.from)), SqlGroups(q, groupBy, db)));
    if !(q.limit.Some? && q.limit.value.count == Some(0)) {
      GroupedStatementDocs(q, groupBy, print_, db);
      var gs := Slice(OffsetOf(q), LimitOf(q), SqlOrder(q.orderBy, GroupOrder(q, MainAlias(q.from)), SqlGroups(q, groupBy, db)));
      OrderedIn(q, GroupOrder(q, MainAlias(q.from)), SqlGroups(q, groupBy, db));
      GroupsObserved(q, groupBy, gs, db);
    }
  }

  lemma {:induction false} OrderedIn<A(!new)>(q: Query, value: A -> Value, s: seq<A>)
    ensures forall x :: x in Slice(OffsetOf(q), LimitOf(q), SqlOrder(q.orderBy, value, s)) ==> x in s
  {
    if q.orderBy != [] {
      SortHolds(ByValue(value, q.orderBy[0].descending), s);
    }
  }

  /** A grouped statement runs the tail stages on the output rows of the groups. */
  lemma {:induction false} GroupsThenTail(q: Query, groupBy: seq<Expr>, print_: Expr -> string, db: M.Database)
    requires Groups(q, groupBy) && QueryFits(q, PlanItemsOf(q.exprs).items, groupBy, db)
    requires BuildAggregate(q, print_).Success? && !(q.limit.Some? && q.limit.value.count == Some(0))
    ensures OrderKeys(q.orderBy, PlanItemsOf(q.exprs).items, MainAlias(q.from)).Success?
    ensures var items, main := PlanItemsOf(q.exprs).items, MainAlias(q.from);
            StatementDocs(BuildAggregate(q, print_).value, db)
            == M.Run(Tail(OrderKeys(q.orderBy, items, main).value, OffsetOf(q), LimitOf(q)),
                     Seqs.Map(OutRows(groupBy, SelectedState(items, main).value.outputs, main), SqlGroups(q, groupBy, db)), db)
  {
    var items, main := PlanItemsOf(q.exprs).items, MainAlias(q.from);
    MainIsMain(q.from);
    var rows, tail := RowsPipeline(q).value, Tail(OrderKeys(q.orderBy, items, main).value, OffsetOf(q), LimitOf(q));
    assert rows + tail + [] == rows + tail;
    RunAppend(rows, tail, MainDocs(q, db), db);
    QueryDocs(q, groupBy, db);
  }

  lemma {:induction false} GroupedStatementDocs(q: Query, groupBy: seq<Expr>, print_: Expr -> string, db: M.Database)
    requires Groups(q, groupBy) && QueryFits(q, PlanItemsOf(q.exprs).items, groupBy, db)
    requires BuildAggregate(q, print_).Success? && OrdersByItem(q, MainAlias(q.from))
    requires !(q.limit.Some? && q.limit.value.count == Some(0))
    ensures var items, main := PlanItemsOf(q.exprs).items, MainAlias(q.from);
            StatementDocs(BuildAggregate(q, print_).value, db)
            == Seqs.Map(OutRows(groupBy, SelectedState(items, main).value.outputs, main),
                        Slice(OffsetOf(q), LimitOf(q), SqlOrder(q.orderBy, GroupOrder(q, main), SqlGroups(q, groupBy, db))))
  {
    var items, main := PlanItemsOf(q.exprs).items, MainAlias(q.from);
    GroupsThenTail(q, groupBy, print_, db);
    var keys := OrderKeys(q.orderBy, items, main).value;
    OrderKeysOne(q.orderBy, items, main);
    if keys != [] {
      forall g | g in SqlGroups(q, groupBy, db)
        ensures NullOf(Get(OutRows(groupBy, SelectedState(items, main).value.outputs, main)(g), keys[0].path))
                == GroupOrder(q, main)(g)
      {
        GroupKeyReads(q, groupBy, db, g);
      }
    }
    TailCorrect(q.orderBy, keys, GroupOrder(q, main), OutRows(groupBy, SelectedState(items, main).value.outputs, main),
                SqlGroups(q, groupBy, db), OffsetOf(q), LimitOf(q), db);
  }

  // ----- statements without grouping -----

  /** A SELECT of columns and expressions, with neither DISTINCT nor a HAVING, which would be lost. */
  predicate Plainly(q: Query) {
    ProjectsLast(q) && q.groupBy.None? && q.having.None? && !q.distinct
  }

  function PassingRows(q: Query, db: M.Database): seq<Row> {
    Seqs.Filter(WherePasses(q.where_, MainAlias(q.from)), SqlFrom(q.from, db))
  }

  function RowOrder(q: Query): Row -> Value {
    (row: Row) =>
      if q.orderBy != [] && q.orderBy[0].e.Col?
      then EnvOf(row, MainAlias(q.from)).col(q.orderBy[0].e.qual, q.orderBy[0].e.name) else Null
  }

  /** At most one ORDER BY, of a column of the joined rows. */
  predicate OrdersByColumn(q: Query, rows: seq<Row>) {
    |q.orderBy| <= 1
    && forall o :: o in q.orderBy ==>
                     o.e.Col? && forall row :: row in rows ==> WellFormed(row, MainAlias(q.from)) && GoodName(MainAlias(q.from))
                                                               && Readable(row, MainAlias(q.from), o.e.qual, o.e.name)
  }

  ghost predicate PlainFits(q: Query, f: Final, db: M.Database) {
    FromFits(q.from, db)
    && (forall row :: row in SqlFrom(q.from, db) ==> WhereFits(q.where_, row, MainAlias(q.from)))
    && OrdersByColumn(q, PassingRows(q, db)) && GoodNames(f.names)
    && forall row :: row in PassingRows(q, db) ==> ItemsFit(PlanItemsOf(q.exprs).items, f.names, row, MainAlias(q.from))
  }

  lemma {:induction false} RowKeyReads(q: Query, db: M.Database, row: Row)
    requires q.orderBy != [] && OrdersByColumn(q, PassingRows(q, db)) && row in PassingRows(q, db)
    ensures OrderPath(q.orderBy[0].e, PlanItemsOf(q.exprs).items, MainAlias(q.from)).Success?
    ensures NullOf(Get(DocOf(row, MainAlias(q.from)), OrderPath(q.orderBy[0].e, PlanItemsOf(q.exprs).items, MainAlias(q.from)).value))
            == RowOrder(q)(row)
  {
    var o := q.orderBy[0];
    assert o in q.orderBy;
    DocReads(row, MainAlias(q.from), o.e.qual, o.e.name);
  }

  /** Joins, WHERE, ORDER BY and LIMIT, before the projection. */
  lemma {:induction false} PlainDocs(q: Query, rows: seq<M.Stage>, keys: seq<M.SortKey>, db: M.Database)
    requires Plainly(q) && RowsPipeline(q) == Success(rows)
    requires OrderKeys(q.orderBy, PlanItemsOf(q.exprs).items, MainAlias(q.from)) == Success(keys)
    requires FromFits(q.from, db) && OrdersByColumn(q, PassingRows(q, db))
    requires forall row :: row in SqlFrom(q.from, db) ==> WhereFits(q.where_, row, MainAlias(q.from))
    ensures M.Run(rows + Tail(keys, OffsetOf(q), LimitOf(q)), MainDocs(q, db), db)
            == Seqs.Map(AsJoined(MainAlias(q.from)),
                        Slice(OffsetOf(q), LimitOf(q), SqlOrder(q.orderBy, RowOrder(q), PassingRows(q, db))))
  {
    var main := MainAlias(q.from);
    MainIsMain(q.from);
    FromWhere(q, Source.JoinStages(Source.ExtractFromPlan(q.from).value.joins, main).value, WhereStages(q.where_, main).value, db);
    RunAppend(rows, Tail(keys, OffsetOf(q), LimitOf(q)), MainDocs(q, db), db);
    OrderKeysOne(q.orderBy, PlanItemsOf(q.exprs).items, main);
    if keys != [] {
      forall row | row in PassingRows(q, db)
        ensures NullOf(Get(AsJoined(main)(row), keys[0].path)) == RowOrder(q)(row)
      {
        RowKeyReads(q, db, row);
      }
    }
    TailCorrect(q.orderBy, keys, RowOrder(q), AsJoined(main), PassingRows(q, db), OffsetOf(q), LimitOf(q), db);
  }

  lemma {:induction false} RowsProjected(items: seq<SelectItem>, f: Final, rows: seq<Row>, main: string)
    requires Projects(f, items, main) && GoodNames(f.names)
    requires forall row :: row in rows ==> ItemsFit(items, f.names, row, main)
    ensures Seqs.Map(ShownAs(f.names), Seqs.Map(M.Projector(FinalSpec(f)), Seqs.Map(AsJoined(main), rows)))
            == Seqs.Map(RowValues(items, main), rows)
  {
    ProjectedTwice(f, rows, main);
    forall row | row in rows
      ensures Shower(f, main)(row) == RowValues(items, main)(row)
    {
      ProjectedRow(items, f, row, main);
    }
    Seqs.MapCong(Shower(f, main), RowValues(items, main), rows);
  }

  lemma {:induction false} ProjectedTwice(f: Final, rows: seq<Row>, main: string)
    ensures Seqs.Map(ShownAs(f.names), Seqs.Map(M.Projector(FinalSpec(f)), Seqs.Map(AsJoined(main), rows)))
            == Seqs.Map(Shower(f, main), rows)
  {
    Seqs.MapMap(M.Projector(FinalSpec(f)), AsJoined(main), Projection(f, main), rows);
    Seqs.MapMap(ShownAs(f.names), Projection(f, main), Shower(f, main), rows);
  }

  function Projection(f: Final, main: string): Row -> Document {
    (row: Row) => M.ProjectDoc(FinalSpec(f), DocOf(row, main))
  }

  function Shower(f: Final, main: string): Row -> seq<Value> {
    (row: Row) => ShownAs(f.names)(Projection(f, main)(row))
  }

  lemma {:induction false} ThenProject(p: seq<M.Stage>, spec: map<string, M.Projected>, docs: seq<Document>, db: M.Database)
    ensures M.Run(p + [M.Project(spec)], docs, db) == Seqs.Map(M.Projector(spec), M.Run(p, docs, db))
  {
    OptionalRun(p, true, M.Project(spec), docs, db);
  }

  /** A statement without grouping: SQL's joined rows that pass WHERE, ordered, limited, and projected. */
  lemma {:induction false} PlainStatementCorrect(q: Query, print_: Expr -> string, f: Final, db: M.Database)
    requires Plainly(q) && BuildAggregate(q, print_).Success?
    requires FinalOf(PlanItemsOf(q.exprs).items, MainAlias(q.from), print_) == Success(f) && PlainFits(q, f, db)
    ensures Seqs.Map(ShownAs(f.names), StatementDocs(BuildAggregate(q, print_).value, db))
            == Seqs.Map(RowValues(PlanItemsOf(q.exprs).items, MainAlias(q.from)),
                        SqlLimited(q, SqlOrder(q.orderBy, RowOrder(q), PassingRows(q, db))))
  {
    LimitedIs(q, SqlOrder(q.orderBy, RowOrder(q), PassingRows(q, db)));
    if !(q.limit.Some? && q.limit.value.count == Some(0)) {
      var items, main := PlanItemsOf(q.exprs).items, MainAlias(q.from);
      MainIsMain(q.from);
      var rows, keys := RowsPipeline(q).value, OrderKeys(q.orderBy, items, main).value;
      PlainDocs(q, rows, keys, db);
      ThenProject(rows + Tail(keys, OffsetOf(q), LimitOf(q)), FinalSpec(f), MainDocs(q, db), db);
      OrderedIn(q, RowOrder(q), PassingRows(q, db));
      FinalProjects(items, main, print_);
      RowsProjected(items, f, Slice(OffsetOf(q), LimitOf(q), SqlOrder(q.orderBy, RowOrder(q), PassingRows(q, db))), main);
    }
  }
}
