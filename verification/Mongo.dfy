/** The part of MongoDB the translator targets: expressions, filters and pipeline stages. */
module Mongo {
  import opened Bson
  import Seqs
  import Ordering
  import Like

  // ----- aggregation expressions -----

  datatype ArithOp = Add | Subtract | Multiply | Divide | MMod

  datatype CompareOp = CEq | CNe | CLt | CLte | CGt | CGte

  datatype Reducer = ToSum | ToAvg | ToMin | ToMax | ToSize

  /** In `Const` a string that begins with `$` is a reference, not a string. */
  datatype MExpr =
    | Const(v: Value)
    | MArith(aop: ArithOp, l: MExpr, r: MExpr)
    | ToLong(x: MExpr)
    | AbsOf(x: MExpr)
    | FloorOf(x: MExpr)
    | Pow(l: MExpr, r: MExpr)
    | MCompare(op: CompareOp, l: MExpr, r: MExpr)
    | MAnd(l: MExpr, r: MExpr)
    | MOr(l: MExpr, r: MExpr)
    | MNot(x: MExpr)
    | Cond(test: MExpr, yes: MExpr, no: MExpr)
    | Switch(branches: Branches, default: MExpr)
    | IfNull(args: MExprs)
    | InList(x: MExpr, list: MExpr)
    | ArrayLit(args: MExprs)
    | RegexTest(x: MExpr, regex: string)
    | FilterList(input: MExpr, as_: string, keep: MExpr)
    | Reduce(red: Reducer, x: MExpr)
    | ElemAt(x: MExpr, i: nat)

  datatype MExprs = MNil | MCons(head: MExpr, tail: MExprs)

  datatype Branches = BNil | Branch(when: MExpr, then_: MExpr, rest: Branches)

  function Eval(e: MExpr, doc: Document, vars: map<string, Value>): Outcome
    decreases e, 0
  {
    match e
    case Const(v) => EvalConst(v, doc, vars)
    case MArith(op, l, r) => Arith(op, Eval(l, doc, vars), Eval(r, doc, vars))
    case ToLong(x) => Truncated(Eval(x, doc, vars))
    case AbsOf(x) => Absolute(Eval(x, doc, vars))
    case FloorOf(x) => Floored(Eval(x, doc, vars))
    case Pow(l, r) => Power(Eval(l, doc, vars), Eval(r, doc, vars))
    case MCompare(op, l, r) => Compare(op, Eval(l, doc, vars), Eval(r, doc, vars))
    case MAnd(l, r) => Choose(Eval(l, doc, vars), AsBool(Eval(r, doc, vars)), Ok(Bool(false)))
    case MOr(l, r) => Choose(Eval(l, doc, vars), Ok(Bool(true)), AsBool(Eval(r, doc, vars)))
    case MNot(x) => Choose(Eval(x, doc, vars), Ok(Bool(false)), Ok(Bool(true)))
    case Cond(c, y, n) => Choose(Eval(c, doc, vars), Eval(y, doc, vars), Eval(n, doc, vars))
    case Switch(bs, d) => EvalSwitch(bs, Eval(d, doc, vars), doc, vars)
    case IfNull(es) => if es.MNil? || es.tail.MNil? then Err else EvalIfNull(es, doc, vars)
    case InList(x, l) => Contains(Eval(x, doc, vars), Eval(l, doc, vars))
    case ArrayLit(es) => EvalArray(es, doc, vars)
    case RegexTest(x, regex) => TestRegex(Eval(x, doc, vars), regex)
    case FilterList(x, v, p) =>
      var a := Eval(x, doc, vars);
      if a.Ok? && NullOf(a.v).Null? then Ok(Null)
      else if a.Ok? && a.v.Arr? then EvalFilter(a.v.items, v, p, doc, vars)
      else Err
    case Reduce(red, x) => Reduced(red, Eval(x, doc, vars))
    case ElemAt(x, i) => Element(Eval(x, doc, vars), i)
  }

  function EvalSwitch(bs: Branches, default: Outcome, doc: Document, vars: map<string, Value>): Outcome
    decreases bs, 1
  {
    match bs
    case BNil => default
    case Branch(w, t, rest) =>
      Choose(Eval(w, doc, vars), Eval(t, doc, vars), EvalSwitch(rest, default, doc, vars))
  }

  /** Of at least two operands: with fewer the server rejects $ifNull. */
  function EvalIfNull(es: MExprs, doc: Document, vars: map<string, Value>): Outcome
    decreases es, 1
  {
    match es
    case MNil => Ok(Null)
    case MCons(h, t) =>
      var a := Eval(h, doc, vars);
      if a.Err? || t.MNil? || NullOf(a.v) != Null then a
      else EvalIfNull(t, doc, vars)
  }

  function EvalArray(es: MExprs, doc: Document, vars: map<string, Value>): Outcome
    decreases es, 1
  {
    match es
    case MNil => Ok(Arr([]))
    case MCons(h, t) =>
      var a, b := Eval(h, doc, vars), EvalArray(t, doc, vars);
      if a.Err? || b.Err? || !b.v.Arr? then Err else Ok(Arr([NullOf(a.v)] + b.v.items))
  }

  function EvalFilter(items: seq<Value>, v: string, keep: MExpr, doc: Document, vars: map<string, Value>): Outcome
    decreases keep, 1, |items|
  {
    if items == [] then Ok(Arr([]))
    else
      var a := Eval(keep, doc, vars[v := items[0]]);
      var rest := EvalFilter(items[1..], v, keep, doc, vars);
      if a.Err? || rest.Err? || !rest.v.Arr? then Err
      else Ok(Arr((if Truthy(a.v) then [items[0]] else []) + rest.v.items))
  }

  // ----- operators on values -----

  predicate Truthy(v: Value) {
    !(v.Missing? || v.Null? || v == Bool(false) || v == Num(0.0))
  }

  /** Only the outcome chosen counts: the other is never evaluated. */
  function Choose(test: Outcome, yes: Outcome, no: Outcome): Outcome {
    if test.Err? then Err else if Truthy(test.v) then yes else no
  }

  function AsBool(a: Outcome): Outcome {
    if a.Err? then Err else Ok(Bool(Truthy(a.v)))
  }

  /** `$name` reads a field, `$$name` a variable; an unbound variable is an error. */
  function EvalConst(v: Value, doc: Document, vars: map<string, Value>): Outcome {
    if !v.Str? || v.s == [] || v.s[0] != '$' then Ok(v)
    else if |v.s| >= 2 && v.s[1] == '$' then
      if v.s[2..] in vars then Ok(vars[v.s[2..]]) else Err
    else Ok(Get(doc, v.s[1..]))
  }

  function Absolute(a: Outcome): Outcome {
    if a.Err? then Err
    else if NullOf(a.v).Null? then Ok(Null)
    else if a.v.Num? then Ok(Num(AbsReal(a.v.n)))
    else Err
  }

  function Floored(a: Outcome): Outcome {
    if a.Err? then Err
    else if NullOf(a.v).Null? then Ok(Null)
    else if a.v.Num? then Ok(Num(a.v.n.Floor as real))
    else Err
  }

  function Truncated(a: Outcome): Outcome {
    if a.Err? then Err
    else if NullOf(a.v).Null? then Ok(Null)
    else if a.v.Num? && InInt64(Trunc(a.v.n)) then Ok(Num(Trunc(a.v.n) as real))
    else Err
  }

  /** Whole powers of ten, the only ones modelled. */
  function Power(a: Outcome, b: Outcome): Outcome {
    if a.Err? || b.Err? then Err
    else if NullOf(a.v).Null? || NullOf(b.v).Null? then Ok(Null)
    else if a.v == Num(10.0) && b.v.Num? && b.v.n.Floor as real == b.v.n then
      Ok(Num(Tens(b.v.n.Floor)))
    else Err
  }

  /** Arithmetic: NULL on a NULL operand, an error on a zero divisor or another type. */
  function Arith(op: ArithOp, a: Outcome, b: Outcome): Outcome {
    if a.Err? || b.Err? then Err
    else if NullOf(a.v).Null? || NullOf(b.v).Null? then Ok(Null)
    else if !a.v.Num? || !b.v.Num? then Err
    else
      match op
      case Add => Ok(Num(a.v.n + b.v.n))
      case Subtract => Ok(Num(a.v.n - b.v.n))
      case Multiply => Ok(Num(Times(a.v.n, b.v.n)))
      case Divide => if b.v.n == 0.0 then Err else Ok(Num(Over(a.v.n, b.v.n)))
      case MMod => if b.v.n == 0.0 then Err else Ok(Num(Remainder(a.v.n, b.v.n)))
  }

  /** Comparisons order values of every type. */
  predicate Holds(op: CompareOp, a: Value, b: Value) {
    match op
    case CEq => a == b
    case CNe => a != b
    case CLt => Less(a, b)
    case CLte => Less(a, b) || a == b
    case CGt => Less(b, a)
    case CGte => Less(b, a) || a == b
  }

  function Compare(op: CompareOp, a: Outcome, b: Outcome): Outcome {
    if a.Err? || b.Err? then Err else Ok(Bool(Holds(op, a.v, b.v)))
  }

  function Contains(a: Outcome, l: Outcome): Outcome {
    if a.Err? || l.Err? || !l.v.Arr? then Err else Ok(Bool(a.v in l.v.items))
  }

  function Element(a: Outcome, i: nat): Outcome {
    if a.Err? || !a.v.Arr? then Err else Ok(if i < |a.v.items| then a.v.items[i] else Missing)
  }

  function TestRegex(a: Outcome, regex: string): Outcome {
    if a.Err? then Err
    else if NullOf(a.v).Null? then Ok(Bool(false))
    else if a.v.Str? then Ok(Bool(Like.RegexMatch(regex, true, a.v.s)))
    else Err
  }

  // ----- reducing lists of values; also what the $group accumulators compute -----

  function SumNums(vs: seq<Value>): real {
    if vs == [] then 0.0 else (if vs[0].Num? then vs[0].n else 0.0) + SumNums(vs[1..])
  }

  function CountNums(vs: seq<Value>): nat {
    if vs == [] then 0 else (if vs[0].Num? then 1 else 0) + CountNums(vs[1..])
  }

  function AvgNums(vs: seq<Value>): Value {
    if CountNums(vs) == 0 then Null else Num(Over(SumNums(vs), CountNums(vs) as real))
  }

  /** The least (or greatest) value that is neither NULL nor absent. */
  function Extreme(least: bool, vs: seq<Value>): Value {
    if vs == [] then Null
    else
      var m := Extreme(least, vs[1..]);
      if NullOf(vs[0]).Null? then m
      else if m.Null? || (if least then Less(vs[0], m) else Less(m, vs[0])) then vs[0]
      else m
  }

  function Reduced(red: Reducer, a: Outcome): Outcome {
    if a.Err? || !a.v.Arr? then Err
    else
      match red
      case ToSum => Ok(Num(SumNums(a.v.items)))
      case ToAvg => Ok(AvgNums(a.v.items))
      case ToMin => Ok(Extreme(true, a.v.items))
      case ToMax => Ok(Extreme(false, a.v.items))
      case ToSize => Ok(Num(|a.v.items| as real))
  }

  // ----- filters -----

  datatype FieldTest =
    | TEq(v: Value)
    | TNe(v: Value)
    | TLt(v: Value)
    | TLte(v: Value)
    | TGt(v: Value)
    | TGte(v: Value)
    | TRange(from: Value, to: Value)
    | TIn(list: Value)
    | TNin(list: Value)
    | TRegex(regex: string, insensitive: bool)
    | TNotRegex(regex: string, insensitive: bool)

  datatype Filter =
    | Everything
    | FAnd(l: Filter, r: Filter)
    | FOr(l: Filter, r: Filter)
    | FNor(x: Filter)
    | Field(path: string, test: FieldTest)
    | FExpr(op: CompareOp, left: MExpr, right: MExpr)

  /** In a filter an absent field equals NULL, and order comparisons stay within a type. */
  predicate Passes(t: FieldTest, v: Value) {
    match t
    case TEq(w) => v == w
    case TNe(w) => v != w
    case TLt(w) => SameType(v, w) && Less(v, w)
    case TLte(w) => SameType(v, w) && (Less(v, w) || v == w)
    case TGt(w) => SameType(v, w) && Less(w, v)
    case TGte(w) => SameType(v, w) && (Less(w, v) || v == w)
    case TRange(a, b) =>
      SameType(v, a) && (Less(a, v) || v == a) && SameType(v, b) && (Less(v, b) || v == b)
    case TIn(l) => l.Arr? && v in l.items
    case TNin(l) => !(l.Arr? && v in l.items)
    case TRegex(r, i) => v.Str? && Like.RegexMatch(r, i, v.s)
    case TNotRegex(r, i) => !(v.Str? && Like.RegexMatch(r, i, v.s))
  }

  /** Whether a document passes; an $expr that errs aborts the query and counts as false. */
  predicate Matches(f: Filter, doc: Document) {
    match f
    case Everything => true
    case FAnd(l, r) => Matches(l, doc) && Matches(r, doc)
    case FOr(l, r) => Matches(l, doc) || Matches(r, doc)
    case FNor(x) => !Matches(x, doc)
    case Field(p, t) => Passes(t, NullOf(Get(doc, p)))
    case FExpr(op, l, r) => Compare(op, Eval(l, doc, map[]), Eval(r, doc, map[])) == Ok(Bool(true))
  }

  // ----- pipeline stages -----

  datatype AccFunc = AccSum | AccAvg | AccMin | AccMax | AddToSet

  datatype Accumulator = Accumulator(func: AccFunc, arg: MExpr)

  /** `_id` of a $group: null, or a document of expressions. */
  datatype GroupId = NullId | DocId(fields: map<string, MExpr>)

  datatype GroupSpec = GroupSpec(id: GroupId, accs: map<string, Accumulator>)

  datatype Projected = Exclude | Include | Computed(e: MExpr)

  datatype SortKey = SortKey(path: string, descending: bool)

  datatype Stage =
    | Lookup(from: string, localField: string, foreignField: string, as_: string)
    | LookupWhere(from: string, let_: map<string, MExpr>, cond: MExpr, as_: string)
    | Unwind(field: string, preserve: bool)
    | Match(filter: Filter)
    | Group(group: GroupSpec)
    | Project(spec: map<string, Projected>)
    | Facet(name: string, inner: seq<Stage>)
    | ReplaceRoot(root: MExpr)
    | Sort(keys: seq<SortKey>)
    | Skip(n: nat)
    | Limit(n: nat)

  type Database = map<string, seq<Document>>

  function Collection(db: Database, name: string): seq<Document> {
    if name in db then db[name] else []
  }

  /** A value computed by a stage; an error, which aborts the pipeline, is left absent. */
  function ValueOf(e: MExpr, doc: Document, vars: map<string, Value>): Value {
    var r := Eval(e, doc, vars);
    if r.Ok? then r.v else Missing
  }

  function Run(stages: seq<Stage>, docs: seq<Document>, db: Database): seq<Document>
    decreases stages, 1
  {
    if stages == [] then docs else Run(stages[1..], RunStage(stages[0], docs, db), db)
  }

  function RunStage(s: Stage, docs: seq<Document>, db: Database): seq<Document>
    decreases s, 0
  {
    match s
    case Lookup(c, l, f, a) => Seqs.Map(Looker(Collection(db, c), l, f, a), docs)
    case LookupWhere(c, vs, e, a) => Seqs.Map(CondLooker(Collection(db, c), vs, e, a), docs)
    case Unwind(f, p) => Seqs.FlatMap(Unwinder(f, p), docs)
    case Match(f) => Seqs.Filter(Matcher(f), docs)
    case Group(g) => GroupAll(g, docs)
    case Project(spec) => Seqs.Map(Projector(spec), docs)
    case Facet(n, inner) => [map[n := Arr(AsDocs(Run(inner, docs, db)))]]
    case ReplaceRoot(e) => Seqs.Map(Rerooter(e), docs)
    case Sort(keys) => SortDocs(keys, docs)
    case Skip(n) => if n <= |docs| then docs[n..] else []
    case Limit(n) => if n <= |docs| then docs[..n] else docs
  }

  lemma {:induction false} GroupRuns(g: GroupSpec, docs: seq<Document>, db: Database)
    ensures RunStage(Group(g), docs, db) == GroupAll(g, docs)
  {
  }

  lemma {:induction false} ProjectRuns(spec: map<string, Projected>, docs: seq<Document>, db: Database)
    ensures RunStage(Project(spec), docs, db) == Seqs.Map(Projector(spec), docs)
  {
  }

  lemma {:induction false} MatchRuns(f: Filter, docs: seq<Document>, db: Database)
    ensures RunStage(Match(f), docs, db) == Seqs.Filter(Matcher(f), docs)
  {
  }

  // What each stage does to one document, as a function value.

  function Looker(coll: seq<Document>, local: string, foreign: string, as_: string): Document -> Document {
    (d: Document) => Attach(d, as_, Seqs.Filter(Equals(foreign, NullOf(Get(d, local))), coll))
  }

  function CondLooker(coll: seq<Document>, vars: map<string, MExpr>, cond: MExpr, as_: string): Document -> Document {
    (d: Document) => Attach(d, as_, FoundBy(coll, vars, cond, d))
  }

  function Attach(d: Document, as_: string, found: seq<Document>): Document {
    d[as_ := Arr(AsDocs(found))]
  }

  function FoundBy(coll: seq<Document>, vars: map<string, MExpr>, cond: MExpr, d: Document): seq<Document> {
    Seqs.Filter(Satisfies(cond, Bind(vars, d)), coll)
  }

  /** $lookup by equality: NULL and absent fields are equal to each other. */
  function Equals(field: string, v: Value): Document -> bool {
    (d: Document) => NullOf(Get(d, field)) == v
  }

  function Satisfies(cond: MExpr, vars: map<string, Value>): Document -> bool {
    (d: Document) => Truthy(ValueOf(cond, d, vars))
  }

  function Unwinder(field: string, preserve: bool): Document -> seq<Document> {
    (d: Document) => UnwindDoc(field, preserve, d)
  }

  function Setter(d: Document, field: string): Value -> Document {
    (v: Value) => d[field := v]
  }

  function Matcher(f: Filter): Document -> bool {
    (d: Document) => Matches(f, d)
  }

  function Projector(spec: map<string, Projected>): Document -> Document {
    (d: Document) => ProjectDoc(spec, d)
  }

  function Rerooter(e: MExpr): Document -> Document {
    (d: Document) => Root(ValueOf(e, d, map[]))
  }

  function KeyFinder(id: GroupId): Document -> Value {
    (d: Document) => KeyOf(id, d)
  }

  function InGroup(id: GroupId, key: Value): Document -> bool {
    (d: Document) => KeyOf(id, d) == key
  }

  function GroupMaker(g: GroupSpec, docs: seq<Document>): Value -> Document {
    (key: Value) => GroupDoc(g, key, Seqs.Filter(InGroup(g.id, key), docs))
  }

  function Reader(e: MExpr): Document -> Value {
    (d: Document) => ValueOf(e, d, map[])
  }

  function NotMissing(): Value -> bool {
    (v: Value) => v != Missing
  }

  function AsDoc(): Document -> Value {
    (d: Document) => Doc(d)
  }

  function AsDocs(docs: seq<Document>): seq<Value> {
    Seqs.Map(AsDoc(), docs)
  }

  function Root(v: Value): Document {
    if v.Doc? then v.fields else map[]
  }

  function Bind(vars: map<string, MExpr>, doc: Document): map<string, Value> {
    map x | x in vars :: ValueOf(vars[x], doc, map[])
  }

  function UnwindDoc(field: string, preserve: bool, d: Document): seq<Document> {
    if field in d && d[field].Arr? then
      if d[field].items == [] then (if preserve then [d - {field}] else [])
      else Seqs.Map(Setter(d, field), d[field].items)
    else if field in d && d[field] != Null then [d]
    else if preserve then [d]
    else []
  }

  function KeyOf(id: GroupId, d: Document): Value {
    match id
    case NullId => Null
    case DocId(fs) =>
      Doc(map n | n in fs && ValueOf(fs[n], d, map[]) != Missing :: ValueOf(fs[n], d, map[]))
  }

  /** One document per distinct key. MongoDB leaves the order of the groups open. */
  function GroupAll(g: GroupSpec, docs: seq<Document>): seq<Document> {
    Seqs.Map(GroupMaker(g, docs), Seqs.Distinct(Seqs.Map(KeyFinder(g.id), docs)))
  }

  function GroupDoc(g: GroupSpec, key: Value, members: seq<Document>): Document {
    (map n | n in g.accs :: Accumulated(g.accs[n], members))["_id" := key]
  }

  function Accumulated(acc: Accumulator, members: seq<Document>): Value {
    Folded(acc.func, Seqs.Map(Reader(acc.arg), members))
  }

  function Folded(f: AccFunc, vs: seq<Value>): Value {
    match f
    case AccSum => Num(SumNums(vs))
    case AccAvg => AvgNums(vs)
    case AccMin => Extreme(true, vs)
    case AccMax => Extreme(false, vs)
    case AddToSet => Arr(Seqs.Distinct(Seqs.Filter(NotMissing(), vs)))
  }

  /** A projection keeps the fields it names, unless all it does is exclude. */
  predicate KeepsOnly(spec: map<string, Projected>) {
    exists n :: n in spec && spec[n] != Exclude
  }

  function ProjectedValue(p: Projected, name: string, d: Document): Value {
    match p
    case Exclude => Missing
    case Include => if name in d then d[name] else Missing
    case Computed(e) => ValueOf(e, d, map[])
  }

  function ProjectDoc(spec: map<string, Projected>, d: Document): Document {
    if KeepsOnly(spec) then
      (if "_id" in d && "_id" !in spec then map["_id" := d["_id"]] else map[])
      + map n | n in spec && ProjectedValue(spec[n], n, d) != Missing :: ProjectedValue(spec[n], n, d)
    else
      d - spec.Keys
  }

  // ----- sorting -----

  predicate Before(keys: seq<SortKey>, a: Document, b: Document) {
    keys != []
    && var x, y := NullOf(Get(a, keys[0].path)), NullOf(Get(b, keys[0].path));
       if keys[0].descending then Less(y, x) || (x == y && Before(keys[1..], a, b))
       else Less(x, y) || (x == y && Before(keys[1..], a, b))
  }

  function Comes(keys: seq<SortKey>): (Document, Document) -> bool {
    (a: Document, b: Document) => Before(keys, a, b)
  }

  /** A stable sort. */
  function SortDocs(keys: seq<SortKey>, docs: seq<Document>): seq<Document> {
    Ordering.SortBy(Comes(keys), docs)
  }
}
