/** Building the grouping stages step by step, as buildAggregate and buildHaving do (render_aggregate.go). */
module Builder {
  import opened Wrappers
  import opened Bson
  import opened Sql
  import Source
  import opened Select
  import opened Render
  import Stages
  import M = Mongo
  import W = Where
  import C = Compiler

  /** Same success; on success the same value, whatever the error message. */
  predicate SameResult<T(==)>(a: Result<T>, b: Result<T>) {
    if b.Success? then a == b else a.Failure?
  }

  lemma {:induction false} SelectionFails(items: seq<SelectItem>, i: nat, main: string)
    requires i <= |items| && SelectedState(items[..i], main).Failure?
    ensures SelectedState(items, main).Failure?
    decreases |items| - i
  {
    if i == |items| {
      assert items[..i] == items;
    } else {
      assert items[..i + 1][..i] == items[..i];
      SelectionFails(items, i + 1, main);
    }
  }

  /** A field more in the grouping state is an entry more in each map. */
  lemma {:induction false} OutputAdded(groupBy: seq<Expr>, outputs: map<string, AggSpec>, name: string, spec: AggSpec, main: string)
    requires AllCols(groupBy) && AllAccumulate(outputs, main) && AccumulatorFor(spec, main).Success?
    ensures var more := outputs[name := spec];
            AllAccumulate(more, main)
            && Accs(more, main) == Accs(outputs, main)[name := AccumulatorFor(spec, main).value]
            && ProjectSpec(groupBy, more) == ProjectSpec(groupBy, outputs)[name := ProjectionOf(spec, name)]
            && Defaults(more) == Defaults(outputs)[name := AggDefault(spec)]
  {
    AccsAdded(outputs, name, spec, main);
    ProjectAdded(groupBy, outputs, name, spec);
  }

  lemma {:induction false} AccsAdded(outputs: map<string, AggSpec>, name: string, spec: AggSpec, main: string)
    requires AllAccumulate(outputs, main) && AccumulatorFor(spec, main).Success?
    ensures var more := outputs[name := spec];
            AllAccumulate(more, main)
            && Accs(more, main) == Accs(outputs, main)[name := AccumulatorFor(spec, main).value]
  {
  }

  lemma {:induction false} ProjectAdded(groupBy: seq<Expr>, outputs: map<string, AggSpec>, name: string, spec: AggSpec)
    requires AllCols(groupBy)
    ensures ProjectSpec(groupBy, outputs[name := spec]) == ProjectSpec(groupBy, outputs)[name := ProjectionOf(spec, name)]
  {
    var before := map n | n in outputs :: ProjectionOf(outputs[n], n);
    var more := outputs[name := spec];
    assert (map n | n in more :: ProjectionOf(more[n], n)) == before[name := ProjectionOf(spec, name)];
    MergeUpdate(KeyProjection(groupBy), before, name, ProjectionOf(spec, name));
  }

  lemma {:induction false} MergeUpdate<A, B>(k: map<A, B>, m: map<A, B>, name: A, v: B)
    ensures k + m[name := v] == (k + m)[name := v]
  {
  }

  /** `_id` of the $group. */
  method GroupColumns(groupBy: seq<Expr>, main: string) returns (id: M.GroupId)
    requires AllCols(groupBy)
    ensures id == IdOf(groupBy, main)
  {
    if groupBy == [] { return M.NullId; }
    var idDoc: map<string, M.MExpr> := map[];
    for i := 0 to |groupBy|
      invariant idDoc == IdFields(groupBy[..i], main)
    {
      assert groupBy[..i + 1][..i] == groupBy[..i];
      var c := groupBy[i];
      idDoc := idDoc[c.name := C.Ref(C.PathOf(c.qual, c.name, main))];
    }
    assert groupBy[..|groupBy|] == groupBy;
    return M.DocId(idDoc);
  }


  /** The state that planning HAVING mutates. */
  class AggregateBuilder {
    const groupBy: seq<Expr>
    const main: string
    var group: map<string, M.Accumulator>
    var project: map<string, M.Projected>
    var defaults: map<string, Value>
    var selName: map<AggSpec, string>
    var havingOnly: seq<string>
    var counter: nat
    var walkErr: bool
    ghost var state: GroupState

    /** The maps are those of one grouping state; an aggregate rejected only leaves a name unused. */
    ghost predicate Valid()
      reads this
    {
      AllCols(groupBy) && Fields() && selName == state.names && havingOnly == state.hidden
      && (!walkErr ==> counter == |state.hidden|)
    }

    ghost predicate Fields()
      requires AllCols(groupBy)
      reads this
    {
      AllAccumulate(state.outputs, main) && group == Accs(state.outputs, main)
      && project == ProjectSpec(groupBy, state.outputs) && defaults == Defaults(state.outputs)
    }

    constructor (groupBy: seq<Expr>, main: string)
      requires AllCols(groupBy)
      ensures Valid() && !walkErr && this.groupBy == groupBy && this.main == main
      ensures state == GroupState(map[], map[], [])
    {
      this.groupBy := groupBy;
      this.main := main;
      group, defaults, selName, havingOnly, counter := map[], map[], map[], [], 0;
      walkErr := false;
      project := map["_id" := M.Exclude];
      state := GroupState(map[], map[], []);
      new;
      for i := 0 to |groupBy|
        invariant project == KeyProjection(groupBy[..i])
        invariant group == map[] && defaults == map[] && selName == map[] && havingOnly == [] && counter == 0
        invariant !walkErr && state == GroupState(map[], map[], [])
      {
        assert groupBy[..i + 1][..i] == groupBy[..i];
        project := project[groupBy[i].name := M.Computed(C.Ref("_id." + groupBy[i].name))];
      }
      assert groupBy[..|groupBy|] == groupBy;
    }

    /** An output field for an aggregate. */
    method AddOutput(name: string, spec: AggSpec, acc: M.Accumulator)
      requires AllCols(groupBy) && Fields() && AccumulatorFor(spec, main) == Success(acc)
      modifies this`group, this`project, this`defaults, this`state
      ensures Fields() && state == old(state).(outputs := old(state).outputs[name := spec])
    {
      OutputAdded(groupBy, state.outputs, name, spec, main);
      group := group[name := acc];
      project := project[name := ProjectionOf(spec, name)];
      defaults := defaults[name := AggDefault(spec)];
      state := state.(outputs := state.outputs[name := spec]);
    }

    /** The aggregates of the select list. */
    method SelectItems(items: seq<SelectItem>) returns (ok: bool)
      requires Valid() && !walkErr && state == GroupState(map[], map[], [])
      modifies this
      ensures ok <==> SelectedState(items, main).Success?
      ensures ok ==> Valid() && !walkErr && state == SelectedState(items, main).value
    {
      for i := 0 to |items|
        invariant Valid() && !walkErr && SelectedState(items[..i], main) == Success(state) && state.hidden == []
      {
        assert items[..i + 1][..i] == items[..i];
        if items[i].AggItem? {
          var acc := AccumulatorFor(items[i].spec, main);
          if acc.Failure? {
            SelectionFails(items, i + 1, main);
            return false;
          }
          var name := AggResultName(items[i].spec, items[i].alias, main);
          AddOutput(name, items[i].spec, acc.value);
          selName := selName[items[i].spec := name];
          state := state.(names := state.names[items[i].spec := name]);
        }
      }
      assert items[..|items|] == items;
      return true;
    }

    /** One aggregate of HAVING: its output field, added if it was not selected. */
    method NameAggregate(spec: AggSpec) returns (e: Expr)
      requires Valid()
      modifies this
      ensures Valid() && Follows(old(walkErr), RewriteHaving(Agg(spec), old(state), main), e)
    {
      if spec in selName { return Col("", selName[spec]); }
      var name := HiddenName(counter);
      counter := counter + 1;
      var acc := AccumulatorFor(spec, main);
      if acc.Failure? {
        walkErr := true;
        return Agg(spec);
      }
      AddOutput(name, spec, acc.value);
      havingOnly := havingOnly + [name];
      selName := selName[spec := name];
      state := state.(names := state.names[spec := name], hidden := state.hidden + [name]);
      return Col("", name);
    }

    /** The walk so far agrees with the specification's. */
    ghost predicate Follows<T(!new)>(failed: bool, spec: Result<Rewritten<T>>, e: T)
      reads this
    {
      if failed || spec.Failure? then walkErr
      else !walkErr && spec == Success(Rewritten(e, state))
    }

    /** HAVING with its aggregates replaced; the maps grow along the way. */
    method Rewrite(e: Expr) returns (r: Expr)
      requires Valid()
      modifies this
      ensures Valid() && Follows(old(walkErr), RewriteHaving(e, old(state), main), r)
      decreases e
    {
      match e
      case Agg(spec) => r := NameAggregate(spec);
      case Col(_, _) => r := e;
      case Lit(_) => r := e;
      case BoolLit(_) => r := e;
      case NullLit => r := e;
      case Tuple(es) => var xs := RewriteList(es); r := Tuple(xs);
      case Unary(op, x) => var y := Rewrite(x); r := Unary(op, y);
      case Binary(op, a, b) => var x := Rewrite(a); var y := Rewrite(b); r := Binary(op, x, y);
      case Compare(op, a, b) => var x := Rewrite(a); var y := Rewrite(b); r := Compare(op, x, y);
      case And(a, b) => var x := Rewrite(a); var y := Rewrite(b); r := And(x, y);
      case Or(a, b) => var x := Rewrite(a); var y := Rewrite(b); r := Or(x, y);
      case Not(x) => var y := Rewrite(x); r := Not(y);
      case Is(x, op) => var y := Rewrite(x); r := Is(y, op);
      case Between(b, x, f, t) =>
        var y := Rewrite(x);
        var lo := Rewrite(f);
        var hi := Rewrite(t);
        r := Between(b, y, lo, hi);
      case Case(b, ws) =>
        var base: Option<Expr> := None;
        if b.Some? { var y := Rewrite(b.value); base := Some(y); }
        var vs := RewriteBranches(ws);
        r := Case(base, vs);
      case Func(f, es) => var xs := RewriteList(es); r := Func(f, xs);
    }

    method RewriteList(es: Exprs) returns (r: Exprs)
      requires Valid()
      modifies this
      ensures Valid() && Follows(old(walkErr), RewriteAll(es, old(state), main), r)
      decreases es
    {
      match es
      case ENil => r := ENil;
      case ECons(h, t) => var x := Rewrite(h); var xs := RewriteList(t); r := ECons(x, xs);
    }

    method RewriteBranches(ws: Whens) returns (r: Whens)
      requires Valid()
      modifies this
      ensures Valid() && Follows(old(walkErr), RewriteWhens(ws, old(state), main), r)
      decreases ws
    {
      match ws
      case NoElse => r := NoElse;
      case Else(x) => var y := Rewrite(x); r := Else(y);
      case When(c, v, rest) =>
        var x := Rewrite(c);
        var y := Rewrite(v);
        var more := RewriteBranches(rest);
        r := When(x, y, more);
    }
  }

  /** The grouping stages of a plan, in one or three pieces. */
  method AppendGrouping(pipeline: seq<M.Stage>, groupBy: seq<Expr>, group: M.GroupSpec, project: map<string, M.Projected>,
                        defaults: map<string, Value>) returns (r: seq<M.Stage>)
    ensures r == pipeline + if groupBy == [] then FacetStages(group, project, defaults) else [M.Group(group), M.Project(project)]
  {
    r := pipeline;
    if groupBy == [] {
      var inner := [M.Group(group), M.Project(project)];
      r := r + [M.Facet("__rows", inner), M.Project(PickSpec(defaults)), M.ReplaceRoot(M.Const(Str("$__row")))];
    } else {
      r := r + [M.Group(group)];
      r := r + [M.Project(project)];
      assert r == pipeline + [M.Group(group), M.Project(project)];
    }
  }

  /** HAVING's $match and the drop of the fields it added. */
  method AppendHaving(pipeline: seq<M.Stage>, filter: M.Filter, havingOnly: seq<string>) returns (r: seq<M.Stage>)
    ensures r == pipeline + ([M.Match(filter)] + if havingOnly == [] then [] else [M.Project(DropSpec(havingOnly))])
  {
    r := pipeline + [M.Match(filter)];
    if |havingOnly| > 0 {
      var drop: map<string, M.Projected> := map[];
      for i := 0 to |havingOnly|
        invariant drop == DropSpec(havingOnly[..i])
      {
        assert havingOnly[..i + 1] == havingOnly[..i] + [havingOnly[i]];
        drop := drop[havingOnly[i] := M.Exclude];
      }
      assert havingOnly[..|havingOnly|] == havingOnly;
      r := r + [M.Project(drop)];
    }
  }

  /** The grouping part of buildAggregate, on the builder's maps. */
  method BuildGrouped(groupBy: seq<Expr>, items: seq<SelectItem>, having: Option<Expr>, main: string)
    returns (r: Result<seq<M.Stage>>)
    ensures SameResult(r, GroupedStages(groupBy, items, having, main))
  {
    for i := 0 to |groupBy|
      invariant AllCols(groupBy[..i])
    {
      if !groupBy[i].Col? {
        assert groupBy[i] in groupBy;
        return Failure("GROUP BY supports column references only");
      }
      assert groupBy[..i + 1] == groupBy[..i] + [groupBy[i]];
    }
    assert groupBy[..|groupBy|] == groupBy;
    var id := GroupColumns(groupBy, main);
    var builder := new AggregateBuilder(groupBy, main);
    var ok := builder.SelectItems(items);
    if !ok { return Failure("unsupported aggregate"); }
    var pipeline: seq<M.Stage> := [];
    if having.None? {
      pipeline := AppendGrouping(pipeline, groupBy, M.GroupSpec(id, builder.group), builder.project, builder.defaults);
      assert pipeline == GroupingStages(groupBy, builder.state, main) + [];
      return Success(pipeline);
    }
    var rewritten := builder.Rewrite(having.value);
    if builder.walkErr { return Failure("unsupported aggregate"); }
    var filter := W.TranslateWhere(rewritten);
    if filter.Failure? { return Failure(filter.msg); }
    pipeline := AppendGrouping(pipeline, groupBy, M.GroupSpec(id, builder.group), builder.project, builder.defaults);
    assert pipeline == GroupingStages(groupBy, builder.state, main);
    pipeline := AppendHaving(pipeline, filter.value, builder.havingOnly);
    assert pipeline == GroupingStages(groupBy, builder.state, main)
                       + HavingStages(HavingPlan(builder.state, Some(rewritten))).value;
    return Success(pipeline);
  }

  /** buildAggregate up to the end of HAVING. */
  method BuildRows(q: Query) returns (r: Result<seq<M.Stage>>)
    ensures SameResult(r, RowsPipeline(q))
  {
    var plan := Source.ExtractFromPlan(q.from);
    if plan.Failure? { return Failure(plan.msg); }
    var main := plan.value.main.alias;
    var joins := Source.AppendJoins(plan.value.joins, main);
    if joins.Failure? { return joins; }
    var pipeline := joins.value;
    if q.where_.Some? {
      var filter := W.TranslateWhere(W.Unqualify(q.where_.value, main));
      if filter.Failure? { return Failure(filter.msg); }
      pipeline := pipeline + [M.Match(filter.value)];
    }
    assert WhereStages(q.where_, main).Success? && pipeline == joins.value + WhereStages(q.where_, main).value;
    var items, hasStar, hasAgg, hasExpr := PlanSelectItems(q.exprs);
    if hasAgg || GroupExprs(q) != [] {
      var grouped := BuildGrouped(GroupExprs(q), items, q.having, main);
      if grouped.Failure? { return grouped; }
      pipeline := pipeline + grouped.value;
    }
    return Success(pipeline);
  }

  lemma {:induction false} OrderFails(orders: seq<Order>, i: nat, items: seq<SelectItem>, main: string)
    requires i <= |orders| && OrderKeys(orders[..i], items, main).Failure?
    ensures OrderKeys(orders, items, main).Failure?
    decreases |orders| - i
  {
    if i == |orders| {
      assert orders[..i] == orders;
    } else {
      assert orders[..i + 1][..i] == orders[..i];
      OrderFails(orders, i + 1, items, main);
    }
  }

  /** The keys of the $sort. */
  method BuildSort(orders: seq<Order>, items: seq<SelectItem>, main: string) returns (r: Result<seq<M.SortKey>>)
    ensures SameResult(r, OrderKeys(orders, items, main))
  {
    var keys: seq<M.SortKey> := [];
    for i := 0 to |orders|
      invariant OrderKeys(orders[..i], items, main) == Success(keys)
    {
      assert orders[..i + 1][..i] == orders[..i];
      var e := orders[i].e;
      if e.Col? {
        keys := keys + [M.SortKey(C.PathOf(e.qual, e.name, main), orders[i].descending)];
      } else {
        var alias := FindExprAlias(e, items);
        if alias == "" {
          OrderFails(orders, i + 1, items, main);
          return Failure("ORDER BY expression must have an alias in SELECT list");
        }
        keys := keys + [M.SortKey(alias, orders[i].descending)];
      }
    }
    assert orders[..|orders|] == orders;
    return Success(keys);
  }

  /** buildAggregate, from the joins to the final projection. */
  method BuildStatement(q: Query, print_: Expr -> string) returns (r: Result<AggregateStmt>)
    ensures SameResult(r, BuildAggregate(q, print_))
  {
    var plan := Source.ExtractFromPlan(q.from);
    if plan.Failure? { return Failure(plan.msg); }
    var main, collection := plan.value.main.alias, plan.value.main.collection;
    if q.limit.Some? && q.limit.value.count == Some(0) {
      return Success(AggregateStmt(collection, [], true));
    }
    var rows := BuildRows(q);
    if rows.Failure? { return Failure(rows.msg); }
    var items, hasStar, hasAgg, hasExpr := PlanSelectItems(q.exprs);
    var keys := BuildSort(q.orderBy, items, main);
    if keys.Failure? { return Failure(keys.msg); }
    var pipeline := Stages.AppendTail(rows.value, keys.value, OffsetOf(q), LimitOf(q));
    if !hasAgg && GroupExprs(q) == [] && !hasStar && |items| > 0 {
      var project := BuildProjection(items, main, print_);
      if project.Failure? { return Failure(project.msg); }
      pipeline := pipeline + [M.Project(project.value)];
    } else {
      assert pipeline == pipeline + [];
    }
    return Success(AggregateStmt(collection, pipeline, false));
  }
}
