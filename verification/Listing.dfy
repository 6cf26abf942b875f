/** The select list as parsed: which expressions it lists, what the result columns are called, and how it is planned (items.go). */
module Listing {
  import opened Wrappers
  import opened Bson
  import opened Sql
  import opened Select
  import opened Render
  import Compiler
  import HavingTheorem
  import RenderTheorem
  import InsertSelect
  import M = Mongo

  /** The listed expressions, in order, with their aliases. */
  function Listed(exprs: seq<SelectExpr>): (xs: seq<SelectExpr>)
    ensures forall x :: x in xs <==> x in exprs && x.Aliased?
  {
    if exprs == [] then []
    else if exprs[0].Star? then Listed(exprs[1..])
    else [exprs[0]] + Listed(exprs[1..])
  }

  lemma {:induction false} ListedSnoc(exprs: seq<SelectExpr>)
    requires exprs != []
    ensures var n := |exprs| - 1;
            Listed(exprs) == Listed(exprs[..n]) + if exprs[n].Star? then [] else [exprs[n]]
  {
    if |exprs| > 1 {
      var n := |exprs| - 1;
      ListedSnoc(exprs[1..]);
      assert exprs[1..][..n - 1] == exprs[..n][1..];
    } else {
      assert Listed(exprs[1..]) == [] && Listed(exprs[..0]) == [];
    }
  }

  /** The planned item is the listed expression: an aggregate with its DISTINCT and argument, a column, or any other expression. */
  predicate StandsFor(item: SelectItem, x: SelectExpr) {
    x.Aliased? && item.alias == x.alias
    && (item.AggItem? <==> x.e.Agg?) && (x.e.Agg? ==> item.spec == x.e.spec)
    && (item.FieldItem? <==> x.e.Col?) && (x.e.Col? ==> item.qual == x.e.qual && item.name == x.e.name)
    && (item.ExprItem? ==> item.e == x.e)
  }

  predicate AllStandFor(items: seq<SelectItem>, xs: seq<SelectExpr>) {
    |items| == |xs| && forall i :: 0 <= i < |xs| ==> StandsFor(items[i], xs[i])
  }

  lemma {:induction false} ItemStands(e: Expr, alias: string)
    ensures StandsFor(PlanItem(e, alias), Aliased(e, alias))
  {
  }

  lemma {:induction false} PlansItems(exprs: seq<SelectExpr>)
    ensures AllStandFor(PlanItemsOf(exprs).items, Listed(exprs))
  {
    if exprs != [] {
      var n := |exprs| - 1;
      PlansItems(exprs[..n]);
      ListedSnoc(exprs);
      if exprs[n].Aliased? {
        ItemStands(exprs[n].e, exprs[n].alias);
      }
    }
  }

  predicate FlagsSay(p: Items, exprs: seq<SelectExpr>) {
    (p.hasStar <==> Star in exprs)
    && (p.hasAgg <==> exists x :: x in exprs && x.Aliased? && x.e.Agg?)
    && (p.hasExpr <==> exists x :: x in exprs && x.Aliased? && !x.e.Agg? && !x.e.Col?)
  }

  lemma {:induction false} PlansFlags(exprs: seq<SelectExpr>)
    ensures FlagsSay(PlanItemsOf(exprs), exprs)
  {
    if exprs != [] {
      var n := |exprs| - 1;
      PlansFlags(exprs[..n]);
      OneMoreFlag(PlanItemsOf(exprs[..n]), PlanItemsOf(exprs), exprs[..n], exprs, exprs[n]);
    }
  }

  lemma {:induction false} OneMoreFlag(p: Items, r: Items, before: seq<SelectExpr>, exprs: seq<SelectExpr>, x: SelectExpr)
    requires FlagsSay(p, before) && exprs == before + [x]
    requires r.hasStar == (p.hasStar || x.Star?) && r.hasAgg == (p.hasAgg || (x.Aliased? && x.e.Agg?))
    requires r.hasExpr == (p.hasExpr || (x.Aliased? && !x.e.Agg? && !x.e.Col?))
    ensures FlagsSay(r, exprs)
  {
    assert forall y :: y in exprs <==> y in before || y == x;
  }

  /** The plan of a select list holds just the listed expressions, in order; its flags say what is among them. */
  lemma {:induction false} PlansListed(exprs: seq<SelectExpr>)
    ensures AllStandFor(PlanItemsOf(exprs).items, Listed(exprs)) && FlagsSay(PlanItemsOf(exprs), exprs)
  {
    PlansItems(exprs);
    PlansFlags(exprs);
  }

  // ----- the columns of a grouped result -----

  function Word(f: AggFunc): string {
    match f
    case Count => "count"
    case Sum => "sum"
    case Avg => "avg"
    case Min => "min"
    case Max => "max"
  }

  /** The column a listed column or aggregate makes: its alias, or the column's name, or one made from the aggregate. */
  function ResultName(x: SelectExpr, main: string): string
    requires x.Aliased?
  {
    if x.alias != "" then x.alias
    else
      match x.e
      case Col(_, n) => n
      case Agg(CountStar) => "count_star"
      case Agg(AggOf(f, _, Col(q, n))) => Word(f) + "_" + if q == "" || (q == main && main != "") then n else q + "." + n
      case Agg(AggOf(f, _, _)) => Word(f) + "_expr"
      case _ => ""
  }

  function ResultNames(exprs: seq<SelectExpr>, main: string): seq<string> {
    NamesOf(Listed(exprs), main)
  }

  function NamesOf(xs: seq<SelectExpr>, main: string): (names: seq<string>)
    requires forall x :: x in xs ==> x.Aliased?
    ensures |names| == |xs| && forall i :: 0 <= i < |xs| ==> names[i] == ResultName(xs[i], main)
  {
    if xs == [] then [] else [ResultName(xs[0], main)] + NamesOf(xs[1..], main)
  }

  /** A grouped statement's fields are named so, if its columns have no alias. */
  lemma {:induction false} NameIsResult(item: SelectItem, x: SelectExpr, main: string)
    requires StandsFor(item, x) && (item.FieldItem? ==> item.alias == "")
    ensures HavingTheorem.NameOf(item, main) == ResultName(x, main)
  {
  }

  // ----- the columns of any other result -----

  /** Its alias, or the printed expression, or the column's name; a column whose name is taken by an earlier one is named with its table. */
  function OutputName(x: SelectExpr, earlier: seq<string>, main: string, print_: Expr -> string): string
    requires x.Aliased?
  {
    if x.e.Col? then
      var name := if x.alias != "" then x.alias else x.e.name;
      if name in earlier && name != "_id" then
        if x.e.qual == "" || (x.e.qual == main && main != "") then x.e.name else x.e.qual + "_" + x.e.name
      else name
    else if x.alias != "" then x.alias
    else print_(x.e)
  }

  function OutputNames(xs: seq<SelectExpr>, main: string, print_: Expr -> string): (names: seq<string>)
    requires forall x :: x in xs ==> x.Aliased?
    ensures |names| == |xs|
  {
    if xs == [] then []
    else
      var n := |xs| - 1;
      var before := OutputNames(xs[..n], main, print_);
      before + [OutputName(xs[n], before, main, print_)]
  }

  lemma {:induction false} UnderscoredFree(s: string)
    requires DotFree(s)
    ensures Underscored(s) == s
  {
    if s != [] {
      UnderscoredFree(s[1..]);
    }
  }

  lemma {:induction false} UnderscoredAppend(a: string, b: string)
    ensures Underscored(a + b) == Underscored(a) + Underscored(b)
  {
    if a == [] {
      assert a + b == b;
    } else {
      assert (a + b)[0] == a[0] && (a + b)[1..] == a[1..] + b;
      UnderscoredAppend(a[1..], b);
    }
  }

  lemma {:induction false} UnderscoredPath(q: string, n: string)
    requires DotFree(q) && DotFree(n)
    ensures Underscored(q + "." + n) == q + "_" + n
  {
    UnderscoredFree(q);
    UnderscoredFree(n);
    UnderscoredAppend(q + ".", n);
    UnderscoredAppend(q, ".");
    assert "."[1..] == [] && Underscored(".") == "_";
  }

  lemma {:induction false} LeafFree(n: string)
    requires DotFree(n)
    ensures Leaf(n) == n
  {
  }

  predicate NamedPlainly(x: SelectExpr) {
    x.Aliased? && (x.e.Col? ==> GoodName(x.e.name) && (x.e.qual == "" || GoodName(x.e.qual)))
  }

  lemma {:induction false} FieldNamed(x: SelectExpr, earlier: seq<string>, taken: set<string>, main: string, print_: Expr -> string)
    requires NamedPlainly(x) && x.e.Col? && forall n :: n != "_id" ==> (n in taken <==> n in earlier)
    ensures FieldName(Compiler.PathOf(x.e.qual, x.e.name, main), x.alias, taken) == OutputName(x, earlier, main, print_)
  {
    var q, n := x.e.qual, x.e.name;
    LeafFree(n);
    UnderscoredFree(n);
    if q != "" {
      UnderscoredPath(q, n);
      RenderTheorem.LeafOf(q, n);
    }
  }

  /** The final projection of a pipeline names its columns so. */
  lemma {:induction false} ProjectionNames(items: seq<SelectItem>, xs: seq<SelectExpr>, main: string, print_: Expr -> string)
    requires FinalOf(items, main, print_).Success? && AllStandFor(items, xs) && forall x :: x in xs ==> NamedPlainly(x)
    ensures var f := FinalOf(items, main, print_).value;
            f.names == OutputNames(xs, main, print_)
            && (forall n :: n in f.spec <==> n == "_id" || n in f.names)
            && ("_id" !in f.names ==> f.spec["_id"] == M.Exclude)
  {
    if items != [] {
      var n := |items| - 1;
      assert AllStandFor(items[..n], xs[..n]);
      ProjectionNames(items[..n], xs[..n], main, print_);
      var f := FinalOf(items[..n], main, print_).value;
      assert FinalOf(items, main, print_) == FinalStep(f, items[n], main, print_);
      assert xs[n] in xs;
      if items[n].FieldItem? {
        FieldNamed(xs[n], f.names, f.spec.Keys, main, print_);
      }
    }
  }

  // ----- the columns of a Find -----

  /** A Find names a column by its path as written, whatever its alias. */
  function FoundName(x: SelectExpr): string
    requires x.Aliased?
  {
    if x.e.Col? then (if x.e.qual == "" then x.e.name else x.e.qual + "." + x.e.name) else ""
  }

  lemma {:induction false} PathIsFound(item: SelectItem, x: SelectExpr)
    requires StandsFor(item, x) && item.FieldItem? && item.name != ""
    ensures InsertSelect.FieldPath(item.qual, item.name) == FoundName(x)
  {
  }
}
