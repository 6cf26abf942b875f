/** HAVING's rewriting is a correct substitution of output fields for aggregates. */
module HavingTheorem {
  import opened Bson
  import opened Sql
  import opened Select

  // ----- fresh names -----

  function DigitValue(c: char): nat {
    if '0' <= c <= '9' then c as int - '0' as int else 0
  }

  function Undigits(s: string): nat {
    if s == [] then 0 else Undigits(s[..|s| - 1]) * 10 + DigitValue(s[|s| - 1])
  }

  lemma {:induction false} DigitsRead(n: nat)
    ensures Undigits(Digits(n)) == n
  {
    assert forall i :: 0 <= i < 10 ==> DigitValue("0123456789"[i]) == i;
    var s := Digits(n);
    if n < 10 {
      assert s[..|s| - 1] == [];
    } else {
      DigitsRead(n / 10);
      assert s[..|s| - 1] == Digits(n / 10);
    }
  }

  /** Different counters make different names. */
  lemma {:induction false} HiddenNameInjective(i: nat, j: nat)
    requires HiddenName(i) == HiddenName(j)
    ensures i == j
  {
    assert HiddenName(i)[5..] == Digits(i) && HiddenName(j)[5..] == Digits(j);
    DigitsRead(i);
    DigitsRead(j);
  }

  lemma {:induction false} DigitsAreDigits(n: nat)
    ensures Digits(n) != [] && '.' !in Digits(n)
  {
    if n >= 10 {
      DigitsAreDigits(n / 10);
    }
  }

  lemma {:induction false} HiddenNameGood(i: nat)
    ensures GoodName(HiddenName(i)) && HiddenName(i) != "_id"
  {
    DigitsAreDigits(i);
    assert HiddenName(i)[1] == '_' && "_id"[1] == 'i';
  }

  // ----- the grouping state -----

  ghost predicate NoneHidden(outputs: map<string, AggSpec>, from: nat) {
    forall i: nat :: i >= from ==> HiddenName(i) !in outputs
  }

  /** Each aggregate's name is its own, and the hidden names are the first ones, in order. */
  ghost predicate Consistent(st: GroupState) {
    && (forall a :: a in st.names ==> st.names[a] in st.outputs && st.outputs[st.names[a]] == a)
    && (forall i :: 0 <= i < |st.hidden| ==> st.hidden[i] == HiddenName(i) && st.hidden[i] in st.outputs)
    && NoneHidden(st.outputs, |st.hidden|)
  }

  /** Fields only get added; the fields added are exactly the hidden ones added. */
  predicate Grows(a: GroupState, b: GroupState) {
    && (forall n :: n in a.outputs ==> n in b.outputs && b.outputs[n] == a.outputs[n])
    && (forall s :: s in a.names ==> s in b.names && b.names[s] == a.names[s])
    && a.hidden <= b.hidden
    && (forall n :: n in b.outputs ==> n in a.outputs || n in b.hidden[|a.hidden|..])
    && (forall n :: n in b.hidden[|a.hidden|..] ==> n !in a.outputs)
  }

  lemma {:induction false} GrowsTransitive(a: GroupState, b: GroupState, c: GroupState)
    requires Grows(a, b) && Grows(b, c)
    ensures Grows(a, c)
  {
    var x, y := b.hidden[|a.hidden|..], c.hidden[|b.hidden|..];
    assert c.hidden[|a.hidden|..] == x + y by {
      assert c.hidden == b.hidden + y;
      assert b.hidden == a.hidden + x;
    }
  }

  lemma {:induction false} GrowsReflexive(a: GroupState)
    ensures Grows(a, a)
  {
  }

  lemma {:induction false} AddHiddenGrows(st: GroupState, spec: AggSpec)
    requires Consistent(st) && spec !in st.names
    ensures Consistent(AddHidden(st, spec)) && Grows(st, AddHidden(st, spec))
  {
    var k := |st.hidden|;
    var st' := AddHidden(st, spec);
    assert st'.hidden[k..] == [HiddenName(k)];
    forall i: nat | i >= k + 1
      ensures HiddenName(i) !in st'.outputs
    {
      if HiddenName(i) == HiddenName(k) {
        HiddenNameInjective(i, k);
      }
    }
  }

  /** What rewriting promises about the state it returns. */
  ghost predicate Advances(a: GroupState, b: GroupState) {
    Consistent(b) && Grows(a, b)
  }

  lemma {:induction false} RewriteAdvances(e: Expr, st: GroupState, main: string)
    requires Consistent(st) && RewriteHaving(e, st, main).Success?
    ensures Advances(st, RewriteHaving(e, st, main).value.st)
    decreases e, 1
  {
    if e.Agg? {
      if e.spec in st.names {
        GrowsReflexive(st);
      } else {
        AddHiddenGrows(st, e.spec);
      }
    } else if e.Unary? || e.Not? || e.Is? {
      RewriteAdvances(e.arg, st, main);
    } else if e.Binary? || e.Compare? || e.And? || e.Or? {
      TwoAdvance(e, e.l, e.r, st, main);
    } else if e.Between? {
      TwoAdvance(e, e.arg, e.from, st, main);
      var mid := RewriteHaving(e.from, RewriteHaving(e.arg, st, main).value.st, main).value.st;
      RewriteAdvances(e.to, mid, main);
      GrowsTransitive(st, mid, RewriteHaving(e.to, mid, main).value.st);
    } else if e.Tuple? {
      RewriteAllAdvances(e.items, st, main);
    } else if e.Func? {
      RewriteAllAdvances(e.args, st, main);
    } else if e.Case? {
      if e.base.Some? {
        RewriteAdvances(e.base.value, st, main);
        var mid := RewriteHaving(e.base.value, st, main).value.st;
        RewriteWhensAdvances(e.whens, mid, main);
        GrowsTransitive(st, mid, RewriteWhens(e.whens, mid, main).value.st);
      } else {
        RewriteWhensAdvances(e.whens, st, main);
      }
    } else {
      GrowsReflexive(st);
    }
  }

  lemma {:induction false} TwoAdvance(e: Expr, l: Expr, r: Expr, st: GroupState, main: string)
    requires l < e && r < e
    requires Consistent(st) && RewriteHaving(l, st, main).Success?
    requires RewriteHaving(r, RewriteHaving(l, st, main).value.st, main).Success?
    ensures Advances(st, RewriteHaving(l, st, main).value.st)
    ensures Advances(st, RewriteHaving(r, RewriteHaving(l, st, main).value.st, main).value.st)
    decreases e, 0
  {
    var mid := RewriteHaving(l, st, main).value.st;
    RewriteAdvances(l, st, main);
    RewriteAdvances(r, mid, main);
    GrowsTransitive(st, mid, RewriteHaving(r, mid, main).value.st);
  }

  lemma {:induction false} RewriteAllAdvances(es: Exprs, st: GroupState, main: string)
    requires Consistent(st) && RewriteAll(es, st, main).Success?
    ensures Advances(st, RewriteAll(es, st, main).value.st)
    decreases es
  {
    if es.ENil? {
      GrowsReflexive(st);
    } else {
      var mid := RewriteHaving(es.head, st, main).value.st;
      RewriteAdvances(es.head, st, main);
      RewriteAllAdvances(es.tail, mid, main);
      GrowsTransitive(st, mid, RewriteAll(es.tail, mid, main).value.st);
    }
  }

  lemma {:induction false} RewriteWhensAdvances(ws: Whens, st: GroupState, main: string)
    requires Consistent(st) && RewriteWhens(ws, st, main).Success?
    ensures Advances(st, RewriteWhens(ws, st, main).value.st)
    decreases ws
  {
    match ws
    case NoElse => GrowsReflexive(st);
    case Else(x) => RewriteAdvances(x, st, main);
    case When(c, v, rest) =>
      var a := RewriteHaving(c, st, main).value.st;
      var b := RewriteHaving(v, a, main).value.st;
      RewriteAdvances(c, st, main);
      RewriteAdvances(v, a, main);
      GrowsTransitive(st, a, b);
      RewriteWhensAdvances(rest, b, main);
      GrowsTransitive(st, b, RewriteWhens(rest, b, main).value.st);
  }

  // ----- substitution -----

  /** Output fields hold the aggregates they stand for. */
  ghost predicate Holds(env: Env, env': Env, st: GroupState) {
    forall a :: a in st.names ==> env'.col("", st.names[a]) == env.agg(a)
  }

  predicate SameColumns(env: Env, env': Env, cols: set<(string, string)>) {
    forall c :: c in cols ==> env'.col(c.0, c.1) == env.col(c.0, c.1)
  }

  lemma {:induction false} HoldsBefore(env: Env, env': Env, a: GroupState, b: GroupState)
    requires Grows(a, b) && Holds(env, env', b)
    ensures Holds(env, env', a)
  {
  }

  /** The rewritten predicate over the output row has the value of the original over the group. */
  lemma {:induction false} RewriteMeans(e: Expr, st: GroupState, main: string, env: Env, env': Env)
    requires Consistent(st) && RewriteHaving(e, st, main).Success?
    requires Holds(env, env', RewriteHaving(e, st, main).value.st)
    requires SameColumns(env, env', Cols(e))
    ensures Eval(RewriteHaving(e, st, main).value.e, env') == Eval(e, env)
    decreases e, 1
  {
    match e
    case Agg(_) =>
    case Col(q, n) => assert (q, n) in Cols(e);
    case Lit(_) =>
    case BoolLit(_) =>
    case NullLit =>
    case Tuple(es) => RewriteAllMeans(es, st, main, env, env');
    case Unary(_, x) => RewriteMeans(x, st, main, env, env');
    case Not(x) => RewriteMeans(x, st, main, env, env');
    case Is(x, _) => RewriteMeans(x, st, main, env, env');
    case Binary(_, l, r) => TwoMean(e, l, r, st, main, env, env');
    case Compare(_, l, r) => TwoMean(e, l, r, st, main, env, env');
    case And(l, r) => TwoMean(e, l, r, st, main, env, env');
    case Or(l, r) => TwoMean(e, l, r, st, main, env, env');
    case Between(_, _, _, _) => BetweenMeans(e, st, main, env, env');
    case Case(_, _) => CaseMeans(e, st, main, env, env');
    case Func(f, es) => RewriteCallMeans(f, es, st, main, env, env');
  }

  lemma {:induction false} TwoMean(e: Expr, l: Expr, r: Expr, st: GroupState, main: string, env: Env, env': Env)
    requires l < e && r < e && Consistent(st) && RewriteHaving(l, st, main).Success?
    requires RewriteHaving(r, RewriteHaving(l, st, main).value.st, main).Success?
    requires Holds(env, env', RewriteHaving(r, RewriteHaving(l, st, main).value.st, main).value.st)
    requires SameColumns(env, env', Cols(l)) && SameColumns(env, env', Cols(r))
    ensures Eval(RewriteHaving(l, st, main).value.e, env') == Eval(l, env)
    ensures Eval(RewriteHaving(r, RewriteHaving(l, st, main).value.st, main).value.e, env') == Eval(r, env)
    decreases e, 0
  {
    var a := RewriteHaving(l, st, main).value.st;
    TwoAdvance(e, l, r, st, main);
    RewriteAdvances(r, a, main);
    HoldsBefore(env, env', a, RewriteHaving(r, a, main).value.st);
    RewriteMeans(l, st, main, env, env');
    RewriteMeans(r, a, main, env, env');
  }

  lemma {:induction false} BetweenMeans(e: Expr, st: GroupState, main: string, env: Env, env': Env)
    requires e.Between? && Consistent(st) && RewriteHaving(e, st, main).Success?
    requires Holds(env, env', RewriteHaving(e, st, main).value.st)
    requires SameColumns(env, env', Cols(e))
    ensures Eval(RewriteHaving(e, st, main).value.e, env') == Eval(e, env)
    decreases e, 0
  {
    var a := RewriteHaving(e.arg, st, main).value.st;
    var b := RewriteHaving(e.from, a, main).value.st;
    var c := RewriteHaving(e.to, b, main).value.st;
    RewriteAdvances(e.arg, st, main);
    RewriteAdvances(e.from, a, main);
    RewriteAdvances(e.to, b, main);
    HoldsBefore(env, env', b, c);
    HoldsBefore(env, env', a, b);
    RewriteMeans(e.arg, st, main, env, env');
    RewriteMeans(e.from, a, main, env, env');
    RewriteMeans(e.to, b, main, env, env');
  }

  lemma {:induction false} CaseMeans(e: Expr, st: GroupState, main: string, env: Env, env': Env)
    requires e.Case? && Consistent(st) && RewriteHaving(e, st, main).Success?
    requires Holds(env, env', RewriteHaving(e, st, main).value.st)
    requires SameColumns(env, env', Cols(e))
    ensures Eval(RewriteHaving(e, st, main).value.e, env') == Eval(e, env)
    decreases e, 0
  {
    if e.base.Some? {
      var b := e.base.value;
      var a := RewriteHaving(b, st, main).value.st;
      RewriteAdvances(b, st, main);
      RewriteWhensAdvances(e.whens, a, main);
      HoldsBefore(env, env', a, RewriteWhens(e.whens, a, main).value.st);
      RewriteMeans(b, st, main, env, env');
      RewriteWhensMeans(Eval(b, env), e.whens, a, main, env, env');
    } else {
      RewriteWhensMeans(Err, e.whens, st, main, env, env');
    }
  }

  lemma {:induction false} RewriteAllMeans(es: Exprs, st: GroupState, main: string, env: Env, env': Env)
    requires Consistent(st) && RewriteAll(es, st, main).Success?
    requires Holds(env, env', RewriteAll(es, st, main).value.st)
    requires SameColumns(env, env', ColsOf(es))
    ensures EvalTuple(RewriteAll(es, st, main).value.e, env') == EvalTuple(es, env)
    ensures FirstNonNull(RewriteAll(es, st, main).value.e, env') == FirstNonNull(es, env)
    ensures SameArgs(RewriteAll(es, st, main).value.e, es, env', env)
    decreases es, 0
  {
    if es.ECons? {
      var a := RewriteHaving(es.head, st, main).value.st;
      RewriteAdvances(es.head, st, main);
      RewriteAllAdvances(es.tail, a, main);
      HoldsBefore(env, env', a, RewriteAll(es.tail, a, main).value.st);
      RewriteMeans(es.head, st, main, env, env');
      RewriteAllMeans(es.tail, a, main, env, env');
    }
  }

  /** Argument lists of the same values. */
  predicate SameArgs(xs: Exprs, es: Exprs, env': Env, env: Env) {
    match (xs, es)
    case (ENil, ENil) => true
    case (ECons(x, s), ECons(e, t)) => Eval(x, env') == Eval(e, env) && SameArgs(s, t, env', env)
    case _ => false
  }

  lemma {:induction false} SameCall(f: FuncName, xs: Exprs, es: Exprs, env': Env, env: Env)
    requires SameArgs(xs, es, env', env) && FirstNonNull(xs, env') == FirstNonNull(es, env)
    ensures Call(f, xs, env') == Call(f, es, env)
  {
    if es.ECons? {
      assert SameArgs(xs.tail, es.tail, env', env);
      if es.tail.ECons? {
        assert SameArgs(xs.tail.tail, es.tail.tail, env', env);
        if es.tail.tail.ECons? {
          assert SameArgs(xs.tail.tail.tail, es.tail.tail.tail, env', env);
        }
      }
    }
  }

  lemma {:induction false} RewriteCallMeans(f: FuncName, es: Exprs, st: GroupState, main: string, env: Env, env': Env)
    requires Consistent(st) && RewriteAll(es, st, main).Success?
    requires Holds(env, env', RewriteAll(es, st, main).value.st)
    requires SameColumns(env, env', ColsOf(es))
    ensures Call(f, RewriteAll(es, st, main).value.e, env') == Call(f, es, env)
    decreases es, 1
  {
    RewriteAllMeans(es, st, main, env, env');
    SameCall(f, RewriteAll(es, st, main).value.e, es, env', env);
  }

  lemma {:induction false} RewriteWhensMeans(base: Outcome, ws: Whens, st: GroupState, main: string, env: Env, env': Env)
    requires Consistent(st) && RewriteWhens(ws, st, main).Success?
    requires Holds(env, env', RewriteWhens(ws, st, main).value.st)
    requires SameColumns(env, env', WhenCols(ws))
    ensures SimpleCase(base, RewriteWhens(ws, st, main).value.e, env') == SimpleCase(base, ws, env)
    ensures SearchedCase(RewriteWhens(ws, st, main).value.e, env') == SearchedCase(ws, env)
    decreases ws
  {
    match ws
    case NoElse =>
    case Else(x) => RewriteMeans(x, st, main, env, env');
    case When(c, v, rest) =>
      var a := RewriteHaving(c, st, main).value.st;
      var b := RewriteHaving(v, a, main).value.st;
      var d := RewriteWhens(rest, b, main).value.st;
      RewriteAdvances(c, st, main);
      RewriteAdvances(v, a, main);
      RewriteWhensAdvances(rest, b, main);
      HoldsBefore(env, env', b, d);
      HoldsBefore(env, env', a, b);
      RewriteMeans(c, st, main, env, env');
      RewriteMeans(v, a, main, env, env');
      RewriteWhensMeans(base, rest, b, main, env, env');
  }

  // ----- the select list's aggregates -----

  function NameOf(item: SelectItem, main: string): string {
    match item
    case FieldItem(_, n, _) => n
    case AggItem(spec, alias) => AggResultName(spec, alias, main)
    case ExprItem(_, alias) => alias
  }

  ghost predicate NotHidden(n: string) {
    forall i: nat :: n != HiddenName(i)
  }

  /** Only names that begin with __hv_ can be hidden. */
  lemma {:induction false} VisibleName(n: string)
    requires !("__hv_" <= n)
    ensures NotHidden(n)
  {
    forall i: nat
      ensures n != HiddenName(i)
    {
      assert "__hv_" <= HiddenName(i);
    }
  }

  /** Output names are usable, distinct, and none is one HAVING would add. */
  ghost predicate GoodItems(items: seq<SelectItem>, main: string) {
    && (forall i :: 0 <= i < |items| ==> GoodName(NameOf(items[i], main)) && NotHidden(NameOf(items[i], main)))
    && (forall i, j :: 0 <= i < j < |items| ==> NameOf(items[i], main) != NameOf(items[j], main))
  }

  predicate InList(items: seq<SelectItem>, spec: AggSpec, name: string, main: string) {
    exists i :: 0 <= i < |items| && items[i].AggItem? && items[i].spec == spec && NameOf(items[i], main) == name
  }

  /** The output fields are those of the select list's aggregates. */
  ghost predicate Selects(st: GroupState, items: seq<SelectItem>, main: string) {
    Consistent(st) && st.hidden == []
    && (forall n :: n in st.outputs ==> InList(items, st.outputs[n], n, main))
    && (forall i :: 0 <= i < |items| && items[i].AggItem? ==>
                      NameOf(items[i], main) in st.outputs && st.outputs[NameOf(items[i], main)] == items[i].spec)
  }

  /** Names of later items are not those of earlier ones. */
  lemma {:induction false} NewName(before: seq<SelectItem>, item: SelectItem, main: string, spec: AggSpec, m: string)
    requires GoodItems(before + [item], main) && InList(before, spec, m, main)
    ensures m != NameOf(item, main) && InList(before + [item], spec, m, main)
  {
    var items := before + [item];
    var i :| 0 <= i < |before| && before[i].AggItem? && before[i].spec == spec && NameOf(before[i], main) == m;
    assert items[i] == before[i] && items[|before|] == item;
  }

  lemma {:induction false} NameAdded(st: GroupState, name: string, spec: AggSpec)
    requires Consistent(st) && st.hidden == [] && name !in st.outputs && NotHidden(name)
    ensures Consistent(GroupState(st.outputs[name := spec], st.names[spec := name], []))
  {
  }

  lemma {:induction false} OneMoreSelected(st: GroupState, before: seq<SelectItem>, item: SelectItem, main: string)
    requires Selects(st, before, main) && item.AggItem? && GoodItems(before + [item], main)
    ensures var name := NameOf(item, main);
            Selects(GroupState(st.outputs[name := item.spec], st.names[item.spec := name], []), before + [item], main)
  {
    var items, name := before + [item], NameOf(item, main);
    assert items[|before|] == item;
    forall m | m in st.outputs
      ensures InList(items, st.outputs[m], m, main) && m != name
    {
      NewName(before, item, main, st.outputs[m], m);
    }
    NameAdded(st, name, item.spec);
    forall i | 0 <= i < |items| && items[i].AggItem?
      ensures NameOf(items[i], main) in st.outputs[name := item.spec]
      ensures st.outputs[name := item.spec][NameOf(items[i], main)] == items[i].spec
    {
      if i < |before| {
        assert items[i] == before[i];
      }
    }
    assert InList(items, item.spec, name, main);
  }

  lemma {:induction false} SameSelected(st: GroupState, before: seq<SelectItem>, item: SelectItem, main: string)
    requires Selects(st, before, main) && !item.AggItem?
    ensures Selects(st, before + [item], main)
  {
    var items := before + [item];
    assert forall i :: 0 <= i < |before| ==> items[i] == before[i];
    forall m | m in st.outputs
      ensures InList(items, st.outputs[m], m, main)
    {
      var i :| 0 <= i < |before| && before[i].AggItem? && before[i].spec == st.outputs[m] && NameOf(before[i], main) == m;
      assert items[i] == before[i];
    }
  }

  lemma {:induction false} SelectedConsistent(items: seq<SelectItem>, main: string)
    requires GoodItems(items, main) && SelectedState(items, main).Success?
    ensures Selects(SelectedState(items, main).value, items, main)
  {
    if items != [] {
      var before, item := items[..|items| - 1], items[|items| - 1];
      assert items == before + [item];
      assert forall i :: 0 <= i < |before| ==> before[i] == items[i];
      SelectedConsistent(before, main);
      if item.AggItem? {
        OneMoreSelected(SelectedState(before, main).value, before, item, main);
      } else {
        SameSelected(SelectedState(before, main).value, before, item, main);
      }
    }
  }
}
