/** The statements that touch schemas and counters, on values (mysql/ddl.go, mysql/alter.go, driver/driver.go). */
module Statements {
  import opened Wrappers
  import opened Bson
  import opened Tables
  import Like
  import Seqs

  // ----- a database and what the program remembers of it -----

  datatype DbState = DbState(
    collections: map<string, seq<Document>>, schemas: map<string, TableRecord>, counters: map<string, int>)

  /** `cached` are the schemas of this database in the store's cache. */
  datatype Session = Session(db: DbState, cached: map<string, TableRecord>)

  /** Every cached schema is the stored one. */
  predicate Agree(s: Session) {
    forall t :: t in s.cached ==> t in s.db.schemas && s.db.schemas[t] == s.cached[t]
  }

  function Counter(counters: map<string, int>, table: string): int {
    if table in counters then counters[table] else 0
  }

  /** The counters once those of a table have reached `next`. */
  function Advanced(counters: map<string, int>, table: string, next: int): map<string, int> {
    if next == Counter(counters, table) then counters else counters[table := next]
  }

  function Moved<T>(m: map<string, T>, from: string, to: string): map<string, T> {
    if from in m then m[to := m[from]] - {from} else m
  }

  function RowsOf(s: DbState, table: string): seq<Document> {
    if table in s.collections then s.collections[table] else []
  }

  // ----- the schema store -----

  /** What Get returns: the cached schema before the stored one. */
  function Seen(s: Session, table: string): Option<TableRecord> {
    if table in s.cached then Some(s.cached[table])
    else if table in s.db.schemas then Some(s.db.schemas[table])
    else None
  }

  /** Get caches what it reads. */
  function Looked(s: Session, table: string): Session {
    if Seen(s, table).Some? then s.(cached := s.cached[table := Seen(s, table).value]) else s
  }

  function Saved(s: Session, table: string, rec: TableRecord): Session {
    Session(s.db.(schemas := s.db.schemas[table := rec]), s.cached[table := rec])
  }

  function Forgotten(s: Session, table: string): Session {
    Session(s.db.(schemas := s.db.schemas - {table}), s.cached - {table})
  }

  // ----- renaming -----

  /** The server refuses unless the collection is there and the new name is free. */
  predicate CanRename(s: Session, from: string, to: string) {
    from in s.db.collections && to !in s.db.collections
  }

  /** The schema that moves is the one seen, changed in place or not. */
  function SchemaMoved(s: Session, from: string, to: string): Session {
    var seen := Seen(s, from);
    if seen.None? then s else Forgotten(Saved(s, to, seen.value), from)
  }

  function Renamed(s: Session, from: string, to: string): Session {
    var moved := SchemaMoved(s.(db := s.db.(collections := Moved(s.db.collections, from, to))), from, to);
    moved.(db := moved.db.(counters := Moved(moved.db.counters, from, to)))
  }

  // ----- ALTER TABLE -----

  datatype AlterOption =
    | AddColumns(cols: seq<ColumnDef>)
    | DropColumn(name: string)
    | ModifyColumn(col: ColumnDef)
    | ChangeColumn(old_: string, col: ColumnDef)
    | AddIndex(index: IndexDef)
    | DropKey(name: string)
    | RenameTo(name: string)
    | OtherOption

  /** Names are compared without regard to case. */
  predicate SameName(a: string, b: string) {
    |a| == |b| && forall i :: 0 <= i < |a| ==> Like.SameLetter(a[i], b[i])
  }

  function RemoveColumn(cols: seq<ColumnDef>, name: string): seq<ColumnDef> {
    if cols == [] then []
    else (if SameName(cols[0].name, name) then [] else [cols[0]]) + RemoveColumn(cols[1..], name)
  }

  function ReplaceColumn(cols: seq<ColumnDef>, name: string, col: ColumnDef): seq<ColumnDef> {
    if cols == [] then [col]
    else if SameName(cols[0].name, name) then [col] + cols[1..]
    else [cols[0]] + ReplaceColumn(cols[1..], name, col)
  }

  function RemoveIndex(indexes: seq<IndexDef>, name: string): seq<IndexDef> {
    if indexes == [] then []
    else (if SameName(indexes[0].name, name) then [] else [indexes[0]]) + RemoveIndex(indexes[1..], name)
  }

  /** The columns of an index after one was renamed. */
  function RenameIn(columns: seq<string>, from: string, to: string): seq<string> {
    if columns == [] then []
    else [if SameName(columns[0], from) then to else columns[0]] + RenameIn(columns[1..], from, to)
  }

  function RenameInAll(indexes: seq<IndexDef>, from: string, to: string): seq<IndexDef> {
    if indexes == [] then []
    else [indexes[0].(columns := RenameIn(indexes[0].columns, from, to))] + RenameInAll(indexes[1..], from, to)
  }

  /** What an option changes in the schema object. */
  function Edited(rec: TableRecord, opt: AlterOption): TableRecord {
    match opt
    case AddColumns(cols) => rec.(columns := rec.columns + cols)
    case DropColumn(name) => rec.(columns := RemoveColumn(rec.columns, name))
    case ModifyColumn(col) => rec.(columns := ReplaceColumn(rec.columns, col.name, col))
    case ChangeColumn(old_, col) =>
      TableRecord(ReplaceColumn(rec.columns, old_, col),
                  if old_ == col.name then rec.indexes else RenameInAll(rec.indexes, old_, col.name))
    case AddIndex(index) => rec.(indexes := rec.indexes + [index])
    case DropKey(name) => rec.(indexes := RemoveIndex(rec.indexes, name))
    case RenameTo(_) => rec
    case OtherOption => rec
  }

  /** The value a new column gets in the documents there are, if any. */
  function Backfill(col: ColumnDef, clock: Clock): Value {
    if !col.hasDefault then Null
    else if col.defaultIsFunc then (if col.defaultValue == "CURRENT_TIMESTAMP" then clock.now else Null)
    else Str(col.defaultValue)
  }

  function Backfilled(d: Document, cols: seq<ColumnDef>, clock: Clock): Document
    decreases |cols|
  {
    if cols == [] then d
    else
      var v := Backfill(cols[0], clock);
      Backfilled(if v != Null && cols[0].name !in d then d[cols[0].name := v] else d, cols[1..], clock)
  }

  function EditedDoc(d: Document, opt: AlterOption, clock: Clock): Document {
    match opt
    case AddColumns(cols) => Backfilled(d, cols, clock)
    case DropColumn(name) => d - {name}
    case ChangeColumn(old_, col) => if old_ != col.name && old_ in d then d[col.name := d[old_]] - {old_} else d
    case _ => d
  }

  function DocEditor(opt: AlterOption, clock: Clock): Document -> Document {
    (d: Document) => EditedDoc(d, opt, clock)
  }

  function DocsEdited(collections: map<string, seq<Document>>, table: string, opt: AlterOption, clock: Clock): map<string, seq<Document>> {
    if table in collections then collections[table := Seqs.Map(DocEditor(opt, clock), collections[table])] else collections
  }

  /** In the middle of an ALTER: the table's name by now, whether the schema object was touched, whether it still runs. */
  datatype Altering = Altering(s: Session, table: string, changed: bool, ok: bool)

  /** `known`: the table has a schema object, which the cache shares. */
  function AlterStep(a: Altering, opt: AlterOption, known: bool, clock: Clock): Altering {
    if !a.ok then a
    else if opt.RenameTo? then
      if CanRename(a.s, a.table, opt.name) then Altering(Renamed(a.s, a.table, opt.name), opt.name, a.changed || known, true)
      else a.(ok := false)
    else
      var db := a.s.db.(collections := DocsEdited(a.s.db.collections, a.table, opt, clock));
      if known && a.table in a.s.cached && !opt.OtherOption? then
        Altering(Session(db, a.s.cached[a.table := Edited(a.s.cached[a.table], opt)]), a.table, true, true)
      else a.(s := a.s.(db := db))
  }

  function AlterRun(a: Altering, opts: seq<AlterOption>, known: bool, clock: Clock): Altering {
    if opts == [] then a
    else AlterStep(AlterRun(a, opts[..|opts| - 1], known, clock), opts[|opts| - 1], known, clock)
  }

  function AlterStart(s: Session, table: string): Altering {
    Altering(Looked(s, table), table, false, true)
  }

  /** The options one by one; the schema is saved at the end, unless a rename was refused before. */
  function Altered(s: Session, table: string, opts: seq<AlterOption>, clock: Clock): Altering {
    AlterRun(AlterStart(s, table), opts, Seen(s, table).Some?, clock)
  }

  function AlterEnd(a: Altering, known: bool): Session {
    if a.ok && known && a.changed && a.table in a.s.cached then Saved(a.s, a.table, a.s.cached[a.table]) else a.s
  }

  // ----- statements -----

  /** CREATE TABLE, INSERT, ALTER, RENAME and DROP TABLE, and a mere look at a schema; some read the clock. */
  datatype Op =
    | Create(table: string, rec: TableRecord)
    | Insert(table: string, docs: seq<Document>, clock: Clock)
    | Alter(table: string, opts: seq<AlterOption>, clock: Clock)
    | Rename(from: string, to: string)
    | Drop(table: string)
    | Describe(table: string)

  /** The documents that an INSERT stores, and the last id issued then. */
  function Inserted(s: Session, table: string, docs: seq<Document>, clock: Clock): FilledAll {
    var seen := Seen(s, table);
    if seen.Some? then FillDocs(docs, seen.value.columns, Counter(s.db.counters, table), clock)
    else FilledAll(docs, Counter(s.db.counters, table))
  }

  function Step(s: Session, op: Op): Session {
    match op
    case Create(t, rec) =>
      if t in s.db.collections then s
      else
        var made := s.(db := s.db.(collections := s.db.collections[t := []]));
        if rec.columns == [] then made else Saved(made, t, rec)
    case Insert(t, docs, clock) =>
      var f := Inserted(s, t, docs, clock);
      var seen := Looked(s, t);
      seen.(db := seen.db.(collections := s.db.collections[t := RowsOf(s.db, t) + f.docs],
                           counters := Advanced(s.db.counters, t, f.next)))
    case Alter(t, opts, clock) => AlterEnd(Altered(s, t, opts, clock), Seen(s, t).Some?)
    case Rename(from, to) => if CanRename(s, from, to) then Renamed(s, from, to) else s
    case Drop(t) =>
      var gone := Forgotten(s, t);
      gone.(db := gone.db.(collections := gone.db.collections - {t}, counters := gone.db.counters - {t}))
    case Describe(t) => Looked(s, t)
  }

  function Run(s: Session, ops: seq<Op>): Session {
    if ops == [] then s else Step(Run(s, ops[..|ops| - 1]), ops[|ops| - 1])
  }
}
