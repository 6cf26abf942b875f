/** Table definitions, defaults and AUTO_INCREMENT counters (driver/schema.go), as values. */
module Tables {
  import opened Wrappers
  import opened Bson

  datatype ColumnDef = ColumnDef(
    name: string, autoIncrement: bool, hasDefault: bool, defaultValue: string, defaultIsFunc: bool)

  datatype IndexDef = IndexDef(name: string, columns: seq<string>, primary: bool, unique: bool)

  /** What is stored about a table, under its name. */
  datatype TableRecord = TableRecord(columns: seq<ColumnDef>, indexes: seq<IndexDef>)

  /** The readings of the clock that a statement's defaults see. */
  datatype Clock = Clock(now: Value, date: string, time: string)

  // ----- cache keys -----

  function CacheKey(db: string, table: string): string {
    db + "." + table
  }

  lemma {:induction false} KeySplit(db: string, table: string)
    requires DotFree(db)
    ensures FirstDot(CacheKey(db, table)) == |db|
    ensures CacheKey(db, table)[..|db|] == db && CacheKey(db, table)[|db| + 1..] == table
  {
    FirstDotAt(db, table);
  }

  /** Database names without a dot, all that MongoDB allows, keep the keys of tables apart. */
  lemma {:induction false} CacheKeyInjective(d: string, t: string, e: string, u: string)
    requires DotFree(d) && DotFree(e) && CacheKey(d, t) == CacheKey(e, u)
    ensures d == e && t == u
  {
    KeySplit(d, t);
    KeySplit(e, u);
  }

  /** With dots, the keys meet exactly when one database name goes on into the other's table name. */
  lemma {:induction false} KeysMeetExactly(d: string, t: string, e: string, u: string)
    requires |d| < |e|
    ensures CacheKey(d, t) == CacheKey(e, u) <==> d + "." <= e && t == e[|d| + 1..] + "." + u
  {
    var k := CacheKey(e, u);
    if CacheKey(d, t) == k {
      assert k[..|d| + 1] == d + "." && e[..|d| + 1] == k[..|d| + 1];
      assert k[|d| + 1..] == t && k[|d| + 1..] == e[|d| + 1..] + "." + u;
    }
    if d + "." <= e && t == e[|d| + 1..] + "." + u {
      assert e == d + "." + e[|d| + 1..];
      assert CacheKey(d, t) == k;
    }
  }

  // ----- defaults -----

  function EvalDefault(col: ColumnDef, clock: Clock): Value {
    if col.defaultIsFunc then
      match col.defaultValue
      case "CURRENT_TIMESTAMP" => clock.now
      case "NOW" => clock.now
      case "CURDATE" => Str(clock.date)
      case "CURTIME" => Str(clock.time)
      case "UUID" => Str("")
      case _ => Null
    else
      match col.defaultValue
      case "NULL" => Null
      case "" => Null
      case "TRUE" => Bool(true)
      case "FALSE" => Bool(false)
      case _ => Str(col.defaultValue)
  }

  predicate Provides(c: ColumnDef) {
    c.autoIncrement || c.hasDefault
  }

  datatype Filled = Filled(doc: Document, next: int)

  /** One document, when `n` is the last id issued to the table. */
  function FillDoc(doc: Document, cols: seq<ColumnDef>, n: int, clock: Clock): Filled
    decreases |cols|
  {
    if cols == [] then Filled(doc, n)
    else
      var c := cols[0];
      if c.name in doc then FillDoc(doc, cols[1..], n, clock)
      else if c.autoIncrement then FillDoc(doc[c.name := Num((n + 1) as real)], cols[1..], n + 1, clock)
      else if c.hasDefault then FillDoc(doc[c.name := EvalDefault(c, clock)], cols[1..], n, clock)
      else FillDoc(doc, cols[1..], n, clock)
  }

  datatype FilledAll = FilledAll(docs: seq<Document>, next: int)

  function FillDocs(docs: seq<Document>, cols: seq<ColumnDef>, n: int, clock: Clock): FilledAll {
    if docs == [] then FilledAll([], n)
    else
      var f := FillDoc(docs[0], cols, n, clock);
      var rest := FillDocs(docs[1..], cols, f.next, clock);
      FilledAll([f.doc] + rest.docs, rest.next)
  }

  function ProvidedNames(cols: seq<ColumnDef>): set<string> {
    set i | 0 <= i < |cols| && Provides(cols[i]) :: cols[i].name
  }

  lemma {:induction false} ProvidedStep(cols: seq<ColumnDef>)
    requires cols != []
    ensures ProvidedNames(cols)
            == (if Provides(cols[0]) then {cols[0].name} else {}) + ProvidedNames(cols[1..])
  {
    var c := cols[0];
    forall n
      ensures n in ProvidedNames(cols) <==>
              n in (if Provides(c) then {c.name} else {}) || n in ProvidedNames(cols[1..])
    {
      if n in ProvidedNames(cols[1..]) {
        var i :| 0 <= i < |cols| - 1 && Provides(cols[1..][i]) && cols[1..][i].name == n;
        assert cols[i + 1].name == n;
      }
      if n in ProvidedNames(cols) {
        var i :| 0 <= i < |cols| && Provides(cols[i]) && cols[i].name == n;
        assert i > 0 ==> cols[1..][i - 1].name == n;
      }
    }
  }

  /** Explicit fields stay, and exactly the missing columns with an id or a default are added. */
  lemma {:induction false} FillKeepsAndCompletes(doc: Document, cols: seq<ColumnDef>, n: int, clock: Clock)
    ensures var f := FillDoc(doc, cols, n, clock).doc;
            f.Keys == doc.Keys + ProvidedNames(cols) && forall k :: k in doc ==> f[k] == doc[k]
    decreases |cols|
  {
    if cols != [] {
      var c := cols[0];
      ProvidedStep(cols);
      if c.name in doc || !Provides(c) {
        FillKeepsAndCompletes(doc, cols[1..], n, clock);
      } else if c.autoIncrement {
        FillKeepsAndCompletes(doc[c.name := Num((n + 1) as real)], cols[1..], n + 1, clock);
      } else {
        FillKeepsAndCompletes(doc[c.name := EvalDefault(c, clock)], cols[1..], n, clock);
      }
    }
  }

  /** The fields that get an id: the first column to provide them is an AUTO_INCREMENT one. */
  function IdNames(taken: set<string>, cols: seq<ColumnDef>): set<string>
    decreases |cols|
  {
    if cols == [] then {}
    else
      var c := cols[0];
      if c.name in taken || !Provides(c) then IdNames(taken, cols[1..])
      else (if c.autoIncrement then {c.name} else {}) + IdNames(taken + {c.name}, cols[1..])
  }

  predicate IsId(v: Value, n: int, next: int) {
    v.Num? && v.n.Floor as real == v.n && n < v.n.Floor <= next
  }

  /** Each of those fields has an id of its own, out of the ones just issued. */
  predicate OwnIds(f: Document, names: set<string>, n: int, next: int) {
    (forall k :: k in names ==> k in f && IsId(f[k], n, next))
    && forall j, k :: j in names && k in names && j != k ==> f[j] != f[k]
  }

  lemma {:induction false} IdNamesFresh(taken: set<string>, cols: seq<ColumnDef>)
    ensures IdNames(taken, cols) !! taken
    decreases |cols|
  {
    if cols != [] {
      IdNamesFresh(taken, cols[1..]);
      IdNamesFresh(taken + {cols[0].name}, cols[1..]);
    }
  }

  predicate Issues(doc: Document, cols: seq<ColumnDef>, n: int, f: Filled) {
    f.next == n + |IdNames(doc.Keys, cols)| && OwnIds(f.doc, IdNames(doc.Keys, cols), n, f.next)
  }

  /** The counter advances by exactly the number of ids issued, and no id is issued twice. */
  lemma {:induction false} FillIssues(doc: Document, cols: seq<ColumnDef>, n: int, clock: Clock)
    ensures Issues(doc, cols, n, FillDoc(doc, cols, n, clock))
    decreases |cols|
  {
    if cols != [] {
      var c := cols[0];
      if c.name in doc || !Provides(c) {
        FillIssues(doc, cols[1..], n, clock);
        assert IdNames(doc.Keys, cols) == IdNames(doc.Keys, cols[1..]);
      } else if c.autoIncrement {
        FillIssues(doc[c.name := Num((n + 1) as real)], cols[1..], n + 1, clock);
        FillKeepsAndCompletes(doc[c.name := Num((n + 1) as real)], cols[1..], n + 1, clock);
        OneMoreId(doc, cols, n, FillDoc(doc, cols, n, clock));
      } else {
        FillIssues(doc[c.name := EvalDefault(c, clock)], cols[1..], n, clock);
        NoMoreIds(doc, cols, n, FillDoc(doc, cols, n, clock), EvalDefault(c, clock));
      }
    }
  }

  lemma {:induction false} NoMoreIds(doc: Document, cols: seq<ColumnDef>, n: int, f: Filled, v: Value)
    requires cols != [] && !cols[0].autoIncrement && cols[0].hasDefault && cols[0].name !in doc
    requires Issues(doc[cols[0].name := v], cols[1..], n, f)
    ensures Issues(doc, cols, n, f)
  {
    assert doc[cols[0].name := v].Keys == doc.Keys + {cols[0].name};
    assert IdNames(doc.Keys, cols) == {} + IdNames(doc.Keys + {cols[0].name}, cols[1..]);
  }

  lemma {:induction false} OneMoreId(doc: Document, cols: seq<ColumnDef>, n: int, f: Filled)
    requires cols != [] && cols[0].autoIncrement && cols[0].name !in doc
    requires Issues(doc[cols[0].name := Num((n + 1) as real)], cols[1..], n + 1, f)
    requires cols[0].name in f.doc && f.doc[cols[0].name] == Num((n + 1) as real)
    ensures Issues(doc, cols, n, f)
  {
    var name := cols[0].name;
    assert doc[name := Num((n + 1) as real)].Keys == doc.Keys + {name};
    var names := IdNames(doc.Keys + {name}, cols[1..]);
    IdNamesFresh(doc.Keys + {name}, cols[1..]);
    assert IdNames(doc.Keys, cols) == {name} + names;
    OwnMore(f.doc, name, names, n, f.next);
  }

  lemma {:induction false} OwnMore(f: Document, name: string, names: set<string>, n: int, next: int)
    requires OwnIds(f, names, n + 1, next) && n < next && name in f && f[name] == Num((n + 1) as real)
    ensures OwnIds(f, {name} + names, n, next)
  {
    assert ((n + 1) as real).Floor == n + 1;
    assert forall k :: k in names ==> IsId(f[k], n + 1, next);
  }

  /** How many ids a list of documents takes. */
  function IdCount(docs: seq<Document>, cols: seq<ColumnDef>): nat {
    if docs == [] then 0 else |IdNames(docs[0].Keys, cols)| + IdCount(docs[1..], cols)
  }

  lemma {:induction false} FillDocsIssue(docs: seq<Document>, cols: seq<ColumnDef>, n: int, clock: Clock)
    ensures FillDocs(docs, cols, n, clock).next == n + IdCount(docs, cols)
  {
    if docs != [] {
      FillIssues(docs[0], cols, n, clock);
      FillDocsIssue(docs[1..], cols, FillDoc(docs[0], cols, n, clock).next, clock);
    }
  }

  // ----- the ids in the documents -----

  /** The whole numbers after n, up to next. */
  function IdsFrom(n: int, next: int): (ids: seq<int>)
    decreases next - n
  {
    if n >= next then [] else [n + 1] + IdsFrom(n + 1, next)
  }

  lemma {:induction false} IdsFromAre(n: int, next: int)
    requires n <= next
    ensures |IdsFrom(n, next)| == next - n && forall i :: 0 <= i < next - n ==> IdsFrom(n, next)[i] == n + 1 + i
    decreases next - n
  {
    if n < next {
      IdsFromAre(n + 1, next);
    }
  }

  lemma {:induction false} IdsJoin(n: int, m: int, next: int)
    requires n <= m <= next
    ensures IdsFrom(n, m) + IdsFrom(m, next) == IdsFrom(n, next)
    decreases m - n
  {
    if n < m {
      IdsJoin(n + 1, m, next);
    }
  }

  function IdIn(f: Document, name: string): int {
    if name in f && f[name].Num? then f[name].n.Floor else 0
  }

  /** The ids read from a filled document, in column order; `taken` are the fields it had before. */
  function WrittenIds(taken: set<string>, cols: seq<ColumnDef>, f: Document): seq<int>
    decreases |cols|
  {
    if cols == [] then []
    else
      var c := cols[0];
      if c.name in taken || !Provides(c) then WrittenIds(taken, cols[1..], f)
      else (if c.autoIncrement then [IdIn(f, c.name)] else []) + WrittenIds(taken + {c.name}, cols[1..], f)
  }

  /** The ids read from all documents, in document order. */
  function WrittenAll(before: seq<Document>, cols: seq<ColumnDef>, after: seq<Document>): seq<int> {
    if before == [] || after == [] then []
    else WrittenIds(before[0].Keys, cols, after[0]) + WrittenAll(before[1..], cols, after[1..])
  }

  /** The ids found in a filled document are the ones just issued, in order. */
  lemma {:induction false} WrittenAre(doc: Document, cols: seq<ColumnDef>, n: int, clock: Clock)
    ensures var f := FillDoc(doc, cols, n, clock);
            n <= f.next && WrittenIds(doc.Keys, cols, f.doc) == IdsFrom(n, f.next)
    decreases |cols|
  {
    if cols != [] {
      var c := cols[0];
      if c.name in doc || !Provides(c) {
        WrittenAre(doc, cols[1..], n, clock);
      } else if c.autoIncrement {
        var more := doc[c.name := Num((n + 1) as real)];
        assert more.Keys == doc.Keys + {c.name};
        assert ((n + 1) as real).Floor == n + 1;
        WrittenAre(more, cols[1..], n + 1, clock);
        FillKeepsAndCompletes(more, cols[1..], n + 1, clock);
      } else {
        var more := doc[c.name := EvalDefault(c, clock)];
        assert more.Keys == doc.Keys + {c.name};
        WrittenAre(more, cols[1..], n, clock);
      }
    }
  }

  lemma {:induction false} WrittenAllAre(docs: seq<Document>, cols: seq<ColumnDef>, n: int, clock: Clock)
    ensures var f := FillDocs(docs, cols, n, clock);
            n <= f.next && WrittenAll(docs, cols, f.docs) == IdsFrom(n, f.next)
  {
    if docs != [] {
      var first := FillDoc(docs[0], cols, n, clock);
      WrittenAre(docs[0], cols, n, clock);
      WrittenAllAre(docs[1..], cols, first.next, clock);
      IdsJoin(n, first.next, FillDocs(docs, cols, n, clock).next);
    }
  }
}
