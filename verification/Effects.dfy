/** What each statement does to documents, schemas and counters, table by table. */
module Effects {
  import opened Wrappers
  import opened Bson
  import opened Tables
  import opened Statements
  import Like
  import Runs
  import Seqs

  // ----- values filled in -----

  /** What a DEFAULT stands for. */
  predicate DefaultHeld(col: ColumnDef, clock: Clock, v: Value) {
    var text := col.defaultValue;
    if col.defaultIsFunc then
      (text in {"CURRENT_TIMESTAMP", "NOW"} ==> v == clock.now)
      && (text == "CURDATE" ==> v == Str(clock.date)) && (text == "CURTIME" ==> v == Str(clock.time))
      && (text == "UUID" ==> v == Str(""))
      && (text !in {"CURRENT_TIMESTAMP", "NOW", "CURDATE", "CURTIME", "UUID"} ==> v == Null)
    else
      (text in {"NULL", ""} ==> v == Null) && (text == "TRUE" ==> v == Bool(true)) && (text == "FALSE" ==> v == Bool(false))
      && (text !in {"NULL", "", "TRUE", "FALSE"} ==> v == Str(text))
  }

  lemma {:induction false} DefaultsAre(col: ColumnDef, clock: Clock)
    ensures DefaultHeld(col, clock, EvalDefault(col, clock))
  {
  }

  /** The column is the first of its name to have an id or a default, and the document does not give it. */
  predicate Supplies(doc: Document, cols: seq<ColumnDef>, i: nat) {
    i < |cols| && Provides(cols[i]) && cols[i].name !in doc
    && forall j :: 0 <= j < i && Provides(cols[j]) ==> cols[j].name != cols[i].name
  }

  /** It holds an id just issued if it is AUTO_INCREMENT, and its DEFAULT otherwise. */
  predicate Supplied(col: ColumnDef, clock: Clock, n: int, next: int, v: Value) {
    if col.autoIncrement then IsId(v, n, next) else DefaultHeld(col, clock, v)
  }

  lemma {:induction false} FillValues(doc: Document, cols: seq<ColumnDef>, n: int, clock: Clock, i: nat)
    requires Supplies(doc, cols, i)
    ensures var f := FillDoc(doc, cols, n, clock);
            cols[i].name in f.doc && Supplied(cols[i], clock, n, f.next, f.doc[cols[i].name])
    decreases |cols|
  {
    var c := cols[0];
    DefaultsAre(c, clock);
    if i == 0 {
      var v := if c.autoIncrement then Num((n + 1) as real) else EvalDefault(c, clock);
      var m := if c.autoIncrement then n + 1 else n;
      FillKeepsAndCompletes(doc[c.name := v], cols[1..], m, clock);
      WrittenAre(doc[c.name := v], cols[1..], m, clock);
      assert ((n + 1) as real).Floor == n + 1;
    } else if c.name in doc || !Provides(c) {
      FillValues(doc, cols[1..], n, clock, i - 1);
    } else if c.autoIncrement {
      FillValues(doc[c.name := Num((n + 1) as real)], cols[1..], n + 1, clock, i - 1);
    } else {
      FillValues(doc[c.name := EvalDefault(c, clock)], cols[1..], n, clock, i - 1);
    }
  }

  /** A document as stored: its own fields, and exactly the columns it lacks that the table supplies. */
  predicate StoredAs(doc: Document, stored: Document, cols: seq<ColumnDef>, clock: Clock, n: int, next: int) {
    stored.Keys == doc.Keys + ProvidedNames(cols) && (forall k :: k in doc ==> stored[k] == doc[k])
    && forall i :: 0 <= i < |cols| && Supplies(doc, cols, i) ==>
                     cols[i].name in stored && Supplied(cols[i], clock, n, next, stored[cols[i].name])
  }

  lemma {:induction false} FilledIsStored(doc: Document, cols: seq<ColumnDef>, m: int, clock: Clock, n: int, next: int)
    requires n <= m && FillDoc(doc, cols, m, clock).next <= next
    ensures StoredAs(doc, FillDoc(doc, cols, m, clock).doc, cols, clock, n, next)
  {
    FillKeepsAndCompletes(doc, cols, m, clock);
    forall i | 0 <= i < |cols| && Supplies(doc, cols, i)
      ensures var f := FillDoc(doc, cols, m, clock).doc; cols[i].name in f && Supplied(cols[i], clock, n, next, f[cols[i].name])
    {
      FillValues(doc, cols, m, clock, i);
    }
  }

  lemma {:induction false} FillDocsStored(docs: seq<Document>, cols: seq<ColumnDef>, n: int, clock: Clock, from: int, to: int)
    requires from <= n && FillDocs(docs, cols, n, clock).next <= to
    ensures var f := FillDocs(docs, cols, n, clock);
            |f.docs| == |docs| && forall i :: 0 <= i < |docs| ==> StoredAs(docs[i], f.docs[i], cols, clock, from, to)
  {
    if docs != [] {
      var first := FillDoc(docs[0], cols, n, clock);
      WrittenAre(docs[0], cols, n, clock);
      WrittenAllAre(docs[1..], cols, first.next, clock);
      FilledIsStored(docs[0], cols, n, clock, from, to);
      FillDocsStored(docs[1..], cols, first.next, clock, from, to);
    }
  }

  // ----- one statement, table by table -----

  /** A table is as it was: documents, schema stored and cached, counter. */
  predicate Untouched(a: Session, b: Session, t: string) {
    (t in b.db.collections <==> t in a.db.collections) && RowsOf(b.db, t) == RowsOf(a.db, t)
    && (t in b.db.schemas <==> t in a.db.schemas) && (t in a.db.schemas ==> b.db.schemas[t] == a.db.schemas[t])
    && (t in b.db.counters <==> t in a.db.counters) && Counter(b.db.counters, t) == Counter(a.db.counters, t)
    && (t in b.cached <==> t in a.cached) && (t in a.cached ==> b.cached[t] == a.cached[t])
  }

  ghost predicate OthersUntouched(a: Session, b: Session, ts: set<string>) {
    forall u :: u !in ts ==> Untouched(a, b, u)
  }

  /** While the cache agrees with the store, the schema seen is the one stored. */
  lemma {:induction false} SeenIsStored(s: Session, t: string)
    requires Agree(s)
    ensures Seen(s, t) == if t in s.db.schemas then Some(s.db.schemas[t]) else None
  {
  }

  function ColumnsSeen(s: Session, t: string): seq<ColumnDef> {
    if Seen(s, t).Some? then Seen(s, t).value.columns else []
  }

  /** INSERT adds its documents after the ones there are, each with what the table supplies, and touches no other table. */
  lemma {:induction false} InsertAdds(s: Session, t: string, docs: seq<Document>, clock: Clock)
    ensures var b := Step(s, Insert(t, docs, clock));
            var before, after := RowsOf(s.db, t), RowsOf(b.db, t);
            |after| == |before| + |docs| && after[..|before|] == before
            && (forall i :: 0 <= i < |docs| ==>
                  StoredAs(docs[i], after[|before| + i], ColumnsSeen(s, t), clock, Counter(s.db.counters, t), Counter(b.db.counters, t)))
            && OthersUntouched(s, b, {t})
            && b.db.schemas == s.db.schemas
  {
    var n, cols, f := Counter(s.db.counters, t), ColumnsSeen(s, t), Inserted(s, t, docs, clock);
    if Seen(s, t).Some? {
      FillDocsStored(docs, cols, n, clock, n, f.next);
    } else {
      NothingSupplied(docs, clock, n, f.next);
    }
    InsertStores(s, t, docs, clock);
  }

  lemma {:induction false} NothingSupplied(docs: seq<Document>, clock: Clock, n: int, next: int)
    ensures forall i :: 0 <= i < |docs| ==> StoredAs(docs[i], docs[i], [], clock, n, next)
  {
  }

  lemma {:induction false} InsertStores(s: Session, t: string, docs: seq<Document>, clock: Clock)
    ensures var b, f := Step(s, Insert(t, docs, clock)), Inserted(s, t, docs, clock);
            RowsOf(b.db, t) == RowsOf(s.db, t) + f.docs && Counter(b.db.counters, t) == f.next
            && b.db.schemas == s.db.schemas && OthersUntouched(s, b, {t})
  {
  }

  /** CREATE TABLE makes an empty table with its schema, unless there is one of the name. */
  lemma {:induction false} CreateMakes(s: Session, t: string, rec: TableRecord)
    ensures var b := Step(s, Create(t, rec));
            if t in s.db.collections then b == s
            else OthersUntouched(s, b, {t}) && t in b.db.collections && RowsOf(b.db, t) == [] && b.db.counters == s.db.counters
                 && (rec.columns != [] ==> t in b.db.schemas && b.db.schemas[t] == rec && t in b.cached && b.cached[t] == rec)
                 && (rec.columns == [] ==> b.db.schemas == s.db.schemas && b.cached == s.cached)
  {
  }

  /** DROP TABLE takes away all there is of a table. */
  lemma {:induction false} DropRemoves(s: Session, t: string)
    ensures var b := Step(s, Drop(t));
            OthersUntouched(s, b, {t})
            && t !in b.db.collections && t !in b.db.schemas && t !in b.db.counters && t !in b.cached
  {
  }

  /** RENAME TABLE moves documents, the schema seen and the counter, if the table is there and the new name free; or does nothing. */
  lemma {:induction false} RenameMoves(s: Session, from: string, to: string)
    ensures var b := Step(s, Rename(from, to));
            if from in s.db.collections && to !in s.db.collections then
              OthersUntouched(s, b, {from, to})
              && from !in b.db.collections && to in b.db.collections && RowsOf(b.db, to) == RowsOf(s.db, from)
              && (Seen(s, from).Some? ==> from !in b.db.schemas && from !in b.cached && to in b.cached && to in b.db.schemas
                                          && b.cached[to] == b.db.schemas[to] == Seen(s, from).value)
              && (from in s.db.counters ==> from !in b.db.counters && Counter(b.db.counters, to) == Counter(s.db.counters, from))
            else b == s
  {
  }

  /** Looking at a schema changes nothing stored, and caches no more than what is stored. */
  lemma {:induction false} DescribeChangesNothing(s: Session, t: string)
    ensures var b := Step(s, Describe(t));
            b.db == s.db && OthersUntouched(s, b, {t})
            && (t in s.cached ==> b.cached == s.cached)
            && (t !in s.cached ==> (t in b.cached <==> t in s.db.schemas) && (t in b.cached ==> b.cached[t] == s.db.schemas[t]))
  {
  }

  // ----- ALTER TABLE, option by option -----

  /** DROP COLUMN takes the field out of every document, and nothing else. */
  lemma {:induction false} DropColumnRemoves(d: Document, name: string, clock: Clock)
    ensures var e := EditedDoc(d, DropColumn(name), clock);
            name !in e && forall k :: k != name ==> (k in e <==> k in d) && (k in d ==> e[k] == d[k])
  {
  }

  /** CHANGE COLUMN moves the value of the field to its new name. */
  lemma {:induction false} ChangeColumnMoves(d: Document, from: string, col: ColumnDef, clock: Clock)
    ensures var e := EditedDoc(d, ChangeColumn(from, col), clock);
            if from in d then
              col.name in e && e[col.name] == d[from] && (from != col.name ==> from !in e)
              && forall k :: k != from && k != col.name ==> (k in e <==> k in d) && (k in d ==> e[k] == d[k])
            else e == d
  {
  }

  /** What ADD COLUMN writes into documents that lack the column: literal defaults as their text, and CURRENT_TIMESTAMP. */
  predicate BackfillHeld(col: ColumnDef, clock: Clock, v: Value) {
    (!col.hasDefault ==> v == Null)
    && (col.hasDefault && !col.defaultIsFunc ==> v == Str(col.defaultValue))
    && (col.hasDefault && col.defaultIsFunc && col.defaultValue == "CURRENT_TIMESTAMP" ==> v == clock.now)
    && (col.hasDefault && col.defaultIsFunc && col.defaultValue != "CURRENT_TIMESTAMP" ==> v == Null)
  }

  lemma {:induction false} BackfillsAre(col: ColumnDef, clock: Clock)
    ensures BackfillHeld(col, clock, Backfill(col, clock))
  {
  }

  lemma {:induction false} AddColumnKeeps(d: Document, cols: seq<ColumnDef>, clock: Clock)
    ensures var e := Backfilled(d, cols, clock);
            (forall k :: k in d ==> k in e && e[k] == d[k])
            && forall k :: k in e && k !in d ==> exists i :: 0 <= i < |cols| && cols[i].name == k && e[k] == Backfill(cols[i], clock)
    decreases |cols|
  {
    if cols != [] {
      var v := Backfill(cols[0], clock);
      var more := if v != Null && cols[0].name !in d then d[cols[0].name := v] else d;
      AddColumnKeeps(more, cols[1..], clock);
      var e := Backfilled(d, cols, clock);
      forall k | k in e && k !in d
        ensures exists i :: 0 <= i < |cols| && cols[i].name == k && e[k] == Backfill(cols[i], clock)
      {
        if k in more {
          assert cols[0].name == k;
        } else {
          var i :| 0 <= i < |cols| - 1 && cols[1..][i].name == k && e[k] == Backfill(cols[1..][i], clock);
          assert cols[i + 1].name == k;
        }
      }
    }
  }

  /** ADD COLUMN of one column: documents without it get its default, unless that is NULL; the others keep theirs. */
  lemma {:induction false} AddColumnFills(d: Document, col: ColumnDef, clock: Clock, v: Value)
    requires BackfillHeld(col, clock, v)
    ensures EditedDoc(d, AddColumns([col]), clock) == if v != Null && col.name !in d then d[col.name := v] else d
  {
    BackfillsAre(col, clock);
    var e := if v != Null && col.name !in d then d[col.name := v] else d;
    assert [col][1..] == [] && Backfilled(e, [], clock) == e;
  }

  lemma {:induction false} OtherOptionsKeep(d: Document, opt: AlterOption, clock: Clock)
    requires opt.ModifyColumn? || opt.AddIndex? || opt.DropKey? || opt.RenameTo? || opt.OtherOption?
    ensures EditedDoc(d, opt, clock) == d
  {
  }

  function Lowered(s: string): (t: string)
    ensures |t| == |s| && forall i :: 0 <= i < |s| ==> t[i] == Like.Lower(s[i])
  {
    if s == [] then [] else [Like.Lower(s[0])] + Lowered(s[1..])
  }

  /** Names of columns and indexes are compared without case. */
  lemma {:induction false} CaseIgnored(a: string, b: string)
    ensures SameName(a, b) <==> Lowered(a) == Lowered(b)
  {
    if SameName(a, b) {
      forall i | 0 <= i < |a|
        ensures Lowered(a)[i] == Lowered(b)[i]
      {
        assert Like.SameLetter(a[i], b[i]);
      }
    }
  }

  /** In the schema DROP COLUMN leaves the other columns, in order, and the indexes. */
  lemma {:induction false} RemoveColumnIs(cols: seq<ColumnDef>, name: string)
    ensures RemoveColumn(cols, name) == Seqs.Filter((c: ColumnDef) => !SameName(c.name, name), cols)
  {
    if cols != [] {
      RemoveColumnIs(cols[1..], name);
    }
  }

  lemma {:induction false} RemoveIndexIs(indexes: seq<IndexDef>, name: string)
    ensures RemoveIndex(indexes, name) == Seqs.Filter((x: IndexDef) => !SameName(x.name, name), indexes)
  {
    if indexes != [] {
      RemoveIndexIs(indexes[1..], name);
    }
  }

  /** MODIFY and CHANGE put the new column where the first of that name was, or at the end. */
  lemma {:induction false} ReplaceColumnIs(cols: seq<ColumnDef>, name: string, col: ColumnDef, i: nat)
    requires i <= |cols| && (i < |cols| ==> SameName(cols[i].name, name))
    requires forall j :: 0 <= j < i ==> !SameName(cols[j].name, name)
    ensures ReplaceColumn(cols, name, col) == if i < |cols| then cols[i := col] else cols + [col]
  {
    if i > 0 {
      ReplaceColumnIs(cols[1..], name, col, i - 1);
      if i < |cols| {
        assert [cols[0]] + cols[1..][i - 1 := col] == cols[i := col];
      } else {
        assert [cols[0]] + (cols[1..] + [col]) == cols + [col];
      }
    } else if cols != [] {
      assert cols[0 := col] == [col] + cols[1..];
    }
  }

  /** CHANGE COLUMN renames the column in every index, whatever its case there. */
  lemma {:induction false} RenamedInIndexes(indexes: seq<IndexDef>, from: string, to: string)
    ensures |RenameInAll(indexes, from, to)| == |indexes|
    ensures forall i :: 0 <= i < |indexes| ==>
              var x := RenameInAll(indexes, from, to)[i];
              x == indexes[i].(columns := x.columns) && |x.columns| == |indexes[i].columns|
              && forall k :: 0 <= k < |x.columns| ==>
                   x.columns[k] == if SameName(indexes[i].columns[k], from) then to else indexes[i].columns[k]
  {
    if indexes != [] {
      RenamedInIndexes(indexes[1..], from, to);
      RenamedIn(indexes[0].columns, from, to);
    }
  }

  lemma {:induction false} RenamedIn(columns: seq<string>, from: string, to: string)
    ensures |RenameIn(columns, from, to)| == |columns|
    ensures forall k :: 0 <= k < |columns| ==> RenameIn(columns, from, to)[k] == if SameName(columns[k], from) then to else columns[k]
  {
    if columns != [] {
      RenamedIn(columns[1..], from, to);
    }
  }

  /** What each option makes of a schema. */
  lemma {:induction false} OptionEdits(rec: TableRecord, opt: AlterOption)
    ensures var e := Edited(rec, opt);
            match opt
            case AddColumns(cols) => e.columns == rec.columns + cols && e.indexes == rec.indexes
            case DropColumn(name) =>
              e.columns == Seqs.Filter((c: ColumnDef) => !SameName(c.name, name), rec.columns) && e.indexes == rec.indexes
            case ModifyColumn(col) => e.columns == ReplaceColumn(rec.columns, col.name, col) && e.indexes == rec.indexes
            case ChangeColumn(from, col) =>
              e.columns == ReplaceColumn(rec.columns, from, col)
              && e.indexes == if from == col.name then rec.indexes else RenameInAll(rec.indexes, from, col.name)
            case AddIndex(index) => e.columns == rec.columns && e.indexes == rec.indexes + [index]
            case DropKey(name) =>
              e.columns == rec.columns && e.indexes == Seqs.Filter((x: IndexDef) => !SameName(x.name, name), rec.indexes)
            case RenameTo(_) => e == rec
            case OtherOption => e == rec
  {
    match opt
    case DropColumn(name) => RemoveColumnIs(rec.columns, name);
    case DropKey(name) => RemoveIndexIs(rec.indexes, name);
    case _ =>
  }

  // ----- ALTER TABLE as a whole -----

  function NameAfter(t: string, opts: seq<AlterOption>): string {
    if opts == [] then t
    else if opts[|opts| - 1].RenameTo? then opts[|opts| - 1].name
    else NameAfter(t, opts[..|opts| - 1])
  }

  function DocAfter(d: Document, opts: seq<AlterOption>, clock: Clock): Document {
    if opts == [] then d else EditedDoc(DocAfter(d, opts[..|opts| - 1], clock), opts[|opts| - 1], clock)
  }

  function DocsAfter(opts: seq<AlterOption>, clock: Clock): Document -> Document {
    (d: Document) => DocAfter(d, opts, clock)
  }

  /** The table's own name and all it is to be given. */
  function NamesGiven(t: string, opts: seq<AlterOption>): set<string> {
    if opts == [] then {t}
    else NamesGiven(t, opts[..|opts| - 1]) + if opts[|opts| - 1].RenameTo? then {opts[|opts| - 1].name} else {}
  }

  lemma {:induction false} NameGiven(t: string, opts: seq<AlterOption>)
    ensures NameAfter(t, opts) in NamesGiven(t, opts)
  {
    if opts != [] {
      NameGiven(t, opts[..|opts| - 1]);
    }
  }

  /** After these options: the documents, under the table's name by now, and no other table touched. */
  ghost predicate DocsAre(start: Altering, a: Altering, opts: seq<AlterOption>, clock: Clock) {
    a.table == NameAfter(start.table, opts)
    && RowsOf(a.s.db, a.table) == Seqs.Map(DocsAfter(opts, clock), RowsOf(start.s.db, start.table))
    && OthersUntouched(start.s, a.s, NamesGiven(start.table, opts))
  }

  lemma {:induction false} StepDocs(a: Altering, opt: AlterOption, known: bool, clock: Clock)
    requires a.ok && AlterStep(a, opt, known, clock).ok
    ensures var b := AlterStep(a, opt, known, clock);
            b.table == (if opt.RenameTo? then opt.name else a.table)
            && RowsOf(b.s.db, b.table) == Seqs.Map(DocEditor(opt, clock), RowsOf(a.s.db, a.table))
            && OthersUntouched(a.s, b.s, {a.table, b.table})
  {
    if opt.RenameTo? {
      RenamedDocs(a, opt, known, clock);
    }
  }

  lemma {:induction false} RenamedDocs(a: Altering, opt: AlterOption, known: bool, clock: Clock)
    requires a.ok && opt.RenameTo? && AlterStep(a, opt, known, clock).ok
    ensures var b := AlterStep(a, opt, known, clock);
            b.table == opt.name && RowsOf(b.s.db, b.table) == Seqs.Map(DocEditor(opt, clock), RowsOf(a.s.db, a.table))
            && OthersUntouched(a.s, b.s, {a.table, b.table})
  {
    RenameMoves(a.s, a.table, opt.name);
    assert Step(a.s, Rename(a.table, opt.name)) == Renamed(a.s, a.table, opt.name);
    SameDocs(DocEditor(opt, clock), RowsOf(a.s.db, a.table));
  }

  lemma {:induction false} SameDocs(f: Document -> Document, docs: seq<Document>)
    requires forall d :: d in docs ==> f(d) == d
    ensures Seqs.Map(f, docs) == docs
  {
  }

  lemma {:induction false} UntouchedTwice(a: Session, b: Session, c: Session, ts: set<string>, us: set<string>, vs: set<string>)
    requires OthersUntouched(a, b, ts) && OthersUntouched(b, c, us) && ts + us <= vs
    ensures OthersUntouched(a, c, vs)
  {
    forall u | u !in vs
      ensures Untouched(a, c, u)
    {
      assert u !in ts && u !in us && Untouched(a, b, u) && Untouched(b, c, u);
    }
  }

  lemma {:induction false} AlterDocs(start: Altering, opts: seq<AlterOption>, known: bool, clock: Clock)
    requires start.ok && AlterRun(start, opts, known, clock).ok
    ensures DocsAre(start, AlterRun(start, opts, known, clock), opts, clock)
  {
    if opts == [] {
      SameDocs(DocsAfter(opts, clock), RowsOf(start.s.db, start.table));
    } else {
      var n := |opts| - 1;
      var before, b := opts[..n], AlterRun(start, opts[..n], known, clock);
      AlterDocs(start, before, known, clock);
      StepDocs(b, opts[n], known, clock);
      NameGiven(start.table, before);
      var a := AlterStep(b, opts[n], known, clock);
      UntouchedTwice(start.s, b.s, a.s, NamesGiven(start.table, before), {b.table, a.table}, NamesGiven(start.table, opts));
      Seqs.MapMap(DocEditor(opts[n], clock), DocsAfter(before, clock), DocsAfter(opts, clock), RowsOf(start.s.db, start.table));
    }
  }

  /** An ALTER that is not refused edits every document by all its options in turn, stores the schema edited so under the last name, and touches no other table. */
  lemma {:induction false} AlterEdits(s: Session, t: string, opts: seq<AlterOption>, clock: Clock)
    requires Agree(s) && Altered(s, t, opts, clock).ok
    ensures var b, name := Step(s, Alter(t, opts, clock)), NameAfter(t, opts);
            RowsOf(b.db, name) == Seqs.Map(DocsAfter(opts, clock), RowsOf(s.db, t))
            && OthersUntouched(s, b, NamesGiven(t, opts))
            && (Seen(s, t).Some? ==> name in b.db.schemas && b.db.schemas[name] == Runs.EditAll(Seen(s, t).value, opts))
  {
    var start, a, known := AlterStart(s, t), Altered(s, t, opts, clock), Seen(s, t).Some?;
    AlterDocs(start, opts, known, clock);
    Runs.MidwayRun(s, t, opts, clock);
    NameGiven(t, opts);
    assert t in NamesGiven(t, opts) by { OwnName(t, opts); }
    assert opts[..|opts|] == opts;
    assert Step(s, Alter(t, opts, clock)) == AlterEnd(a, known);
  }

  lemma {:induction false} OwnName(t: string, opts: seq<AlterOption>)
    ensures t in NamesGiven(t, opts)
  {
    if opts != [] {
      OwnName(t, opts[..|opts| - 1]);
    }
  }
}
