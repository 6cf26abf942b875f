/** The schema store, its cache of shared schema objects, and the statements that use it. */
module Schema {
  import opened Bson
  import opened Tables
  import opened Statements

  /** The schema object that Get hands out: callers hold the one the cache holds. */
  class TableSchema {
    var tableName: string
    var columns: seq<ColumnDef>
    var indexes: seq<IndexDef>

    constructor (tableName: string, rec: TableRecord)
      ensures this.tableName == tableName && Record() == rec
    {
      this.tableName := tableName;
      this.columns := rec.columns;
      this.indexes := rec.indexes;
    }

    function Record(): TableRecord
      reads this
    {
      TableRecord(columns, indexes)
    }

    /** One option of an ALTER, carried out on the shared object. */
    method Edit(opt: AlterOption)
      modifies this`columns, this`indexes
      ensures Record() == Edited(old(Record()), opt)
    {
      match opt
      case AddColumns(cols) => columns := columns + cols;
      case DropColumn(name) => columns := DropNamed(columns, name);
      case ModifyColumn(col) => columns := PutColumn(columns, col.name, col);
      case ChangeColumn(old_, col) =>
        if old_ != col.name {
          indexes := RenameInAll(indexes, old_, col.name);
        }
        columns := PutColumn(columns, old_, col);
      case AddIndex(index) => indexes := indexes + [index];
      case DropKey(name) => indexes := DropIndexNamed(indexes, name);
      case RenameTo(_) =>
      case OtherOption =>
    }
  }

  /** No table of the database has this key. */
  ghost predicate Foreign(db: string, key: string) {
    forall t :: CacheKey(db, t) != key
  }

  lemma {:induction false} KeysApart(db: string)
    ensures forall t, u :: CacheKey(db, t) == CacheKey(db, u) ==> t == u
  {
    forall t, u | CacheKey(db, t) == CacheKey(db, u)
      ensures t == u
    {
      assert CacheKey(db, t)[|db| + 1..] == t && CacheKey(db, u)[|db| + 1..] == u;
    }
  }

  method DropNamed(cols: seq<ColumnDef>, name: string) returns (out: seq<ColumnDef>)
    ensures out == RemoveColumn(cols, name)
  {
    out := [];
    for i := 0 to |cols|
      invariant out + RemoveColumn(cols[i..], name) == RemoveColumn(cols, name)
    {
      assert cols[i..][0] == cols[i] && cols[i..][1..] == cols[i + 1..];
      if !SameName(cols[i].name, name) {
        out := out + [cols[i]];
      }
    }
  }

  method DropIndexNamed(indexes: seq<IndexDef>, name: string) returns (out: seq<IndexDef>)
    ensures out == RemoveIndex(indexes, name)
  {
    out := [];
    for i := 0 to |indexes|
      invariant out + RemoveIndex(indexes[i..], name) == RemoveIndex(indexes, name)
    {
      assert indexes[i..][0] == indexes[i] && indexes[i..][1..] == indexes[i + 1..];
      if !SameName(indexes[i].name, name) {
        out := out + [indexes[i]];
      }
    }
  }

  lemma {:induction false} PutStep(cols: seq<ColumnDef>, i: nat, name: string, col: ColumnDef)
    requires i < |cols|
    ensures cols[..i] + ReplaceColumn(cols[i..], name, col)
            == if SameName(cols[i].name, name) then cols[i := col]
               else cols[..i + 1] + ReplaceColumn(cols[i + 1..], name, col)
  {
    assert cols[i..][0] == cols[i] && cols[i..][1..] == cols[i + 1..];
    var rest := ReplaceColumn(cols[i + 1..], name, col);
    assert cols[..i] + ([cols[i]] + rest) == cols[..i + 1] + rest;
  }

  /** The first column of that name is replaced, or the new one appended. */
  method PutColumn(cols: seq<ColumnDef>, name: string, col: ColumnDef) returns (out: seq<ColumnDef>)
    ensures out == ReplaceColumn(cols, name, col)
  {
    for i := 0 to |cols|
      invariant cols[..i] + ReplaceColumn(cols[i..], name, col) == ReplaceColumn(cols, name, col)
    {
      PutStep(cols, i, name, col);
      if SameName(cols[i].name, name) {
        return cols[i := col];
      }
    }
    assert cols[..|cols|] == cols && cols[|cols|..] == [];
    return cols + [col];
  }

  /** The persistent side: what a MongoDB database holds. */
  class Database {
    const name: string
    var collections: map<string, seq<Document>>
    var schemas: map<string, TableRecord>
    var counters: map<string, int>

    constructor (name: string)
      ensures this.name == name && State() == DbState(map[], map[], map[])
    {
      this.name := name;
      this.collections, this.schemas, this.counters := map[], map[], map[];
    }

    function State(): DbState
      reads this
    {
      DbState(collections, schemas, counters)
    }

    /** Atomically takes the next id of a table. */
    method NextAutoIncrement(table: string) returns (id: int)
      modifies this`counters
      ensures id == Counter(old(counters), table) + 1
      ensures counters == old(counters)[table := id]
    {
      id := Counter(counters, table) + 1;
      counters := counters[table := id];
    }

    /** The last id goes with a table that is renamed. */
    method MoveCounter(from: string, to: string)
      modifies this`counters
      ensures counters == Moved(old(counters), from, to)
    {
      if from in counters {
        var n := counters[from];
        counters := counters[to := n];
        counters := counters - {from};
      }
    }
  }

  class SchemaStore {
    var cache: map<string, TableSchema>

    constructor ()
      ensures Valid() && cache == map[]
    {
      cache := map[];
    }

    /** No object is cached under two keys, so changing one in place changes no other entry. */
    ghost predicate Valid()
      reads this
    {
      forall j, k {:trigger cache[j], cache[k]} :: j in cache && k in cache && j != k ==> cache[j] != cache[k]
    }

    /** The object cached under a key, and what it says now. */
    ghost predicate Entry(key: string, table: string, rec: TableRecord)
      reads this, cache.Values
    {
      key in cache && cache[key].tableName == table && cache[key].Record() == rec
    }

    /** A database's part of the cache, as a value, but for tables about to be saved or deleted. */
    ghost predicate Caches(db: string, cached: map<string, TableRecord>, pending: set<string>)
      reads this, cache.Values
    {
      forall t :: t !in pending ==>
        if t in cached then Entry(CacheKey(db, t), t, cached[t]) else CacheKey(db, t) !in cache
    }

    /** The database and its part of the cache, as a value. */
    ghost predicate Holds(db: Database, s: Session)
      reads this, db, cache.Values
    {
      s.db == db.State() && Caches(db.name, s.cached, {})
    }

    /** All entries but this database's are what they were. */
    twostate predicate OthersKept(db: Database)
      reads this, cache.Values
    {
      forall k {:trigger Foreign(db.name, k)} :: Foreign(db.name, k) ==>
        (k in cache <==> k in old(cache))
        && (k in cache ==> cache[k] == old(cache)[k] && cache[k].tableName == old(cache[k].tableName)
                           && cache[k].Record() == old(cache[k].Record()))
    }

    /** Stores a schema and caches the object itself. */
    method Save(db: Database, schema: TableSchema, ghost cached: map<string, TableRecord>, ghost pending: set<string>)
      requires Caches(db.name, cached, pending)
      modifies this`cache, db`schemas
      ensures Caches(db.name, cached[schema.tableName := schema.Record()], pending - {schema.tableName})
      ensures cache == old(cache)[CacheKey(db.name, schema.tableName) := schema]
      ensures db.schemas == old(db.schemas)[schema.tableName := schema.Record()]
    {
      KeysApart(db.name);
      db.schemas := db.schemas[schema.tableName := schema.Record()];
      cache := cache[CacheKey(db.name, schema.tableName) := schema];
    }

    /** The cached object, or else a new one read from the database. */
    method Get(db: Database, table: string, ghost s: Session) returns (schema: TableSchema?)
      requires Valid() && Holds(db, s)
      modifies this`cache
      ensures Valid() && Holds(db, Looked(s, table)) && OthersKept(db)
      ensures schema != null <==> Seen(s, table).Some?
      ensures schema == null ==> cache == old(cache)
      ensures CacheKey(db.name, table) in old(cache) ==> schema == old(cache)[CacheKey(db.name, table)]
      ensures schema != null ==> cache == old(cache)[CacheKey(db.name, table) := schema]
      ensures schema != null ==> fresh(schema) || schema in old(cache).Values
      ensures forall o :: o in cache.Values ==> o in old(cache).Values || fresh(o)
    {
      var key := CacheKey(db.name, table);
      KeysApart(db.name);
      if key in cache { return cache[key]; }
      if table !in db.schemas { return null; }
      schema := new TableSchema(table, db.schemas[table]);
      cache := cache[key := schema];
    }

    method Delete(db: Database, table: string, ghost cached: map<string, TableRecord>, ghost pending: set<string>)
      requires Caches(db.name, cached, pending)
      modifies this`cache, db`schemas
      ensures Caches(db.name, cached - {table}, pending - {table})
      ensures cache == old(cache) - {CacheKey(db.name, table)} && db.schemas == old(db.schemas) - {table}
    {
      KeysApart(db.name);
      cache := cache - {CacheKey(db.name, table)};
      db.schemas := db.schemas - {table};
    }

    /** CREATE TABLE: the collection, and a new schema object unless it has no columns. */
    method CreateTable(db: Database, table: string, rec: TableRecord, ghost s: Session)
      requires Valid() && Holds(db, s)
      modifies this`cache, db`collections, db`schemas
      ensures Valid() && Holds(db, Step(s, Create(table, rec))) && OthersKept(db)
      ensures forall o :: o in cache.Values ==> o in old(cache).Values || fresh(o)
    {
      if table in db.collections { return; }
      db.collections := db.collections[table := []];
      if |rec.columns| > 0 {
        var schema := new TableSchema(table, rec);
        Save(db, schema, s.cached, {});
      }
    }

    /** Moves the schema of a renamed table, if there is one. */
    method MoveSchema(db: Database, from: string, to: string, ghost s: Session)
      requires Valid() && Holds(db, s) && from != to
      modifies this`cache, db`schemas, cache.Values
      ensures Valid() && Holds(db, SchemaMoved(s, from, to)) && OthersKept(db)
      ensures CacheKey(db.name, from) in old(cache) ==>
                CacheKey(db.name, to) in cache && cache[CacheKey(db.name, to)] == old(cache)[CacheKey(db.name, from)]
      ensures forall o :: o in cache.Values ==> o in old(cache).Values || fresh(o)
    {
      var schema := Get(db, from, s);
      if schema != null {
        ghost var looked := Looked(s, from);
        Rekey(db, schema, from, to, looked);
        MovedIs(s, from, to);
      }
    }

    /** The shared object is renamed in place, saved and its old entry deleted. */
    method Rekey(db: Database, schema: TableSchema, from: string, to: string, ghost s: Session)
      requires Valid() && Holds(db, s) && from != to
      requires CacheKey(db.name, from) in cache && cache[CacheKey(db.name, from)] == schema
      modifies this`cache, db`schemas, schema
      ensures Valid() && OthersKept(db)
      ensures db.State() == s.db.(schemas := s.db.schemas[to := schema.Record()] - {from})
      ensures from in s.cached && schema.Record() == s.cached[from]
      ensures Caches(db.name, s.cached[to := schema.Record()] - {from}, {})
      ensures cache == old(cache)[CacheKey(db.name, to) := schema] - {CacheKey(db.name, from)}
      ensures CacheKey(db.name, to) in cache && cache[CacheKey(db.name, to)] == schema
      ensures cache.Values <= old(cache).Values
    {
      assert Entry(CacheKey(db.name, from), from, s.cached[from]);
      KeysApart(db.name);
      schema.tableName := to;
      assert Caches(db.name, s.cached, {from});
      Save(db, schema, s.cached, {from});
      Delete(db, from, s.cached[to := schema.Record()], {from});
    }

    /** renameCollection: the documents, then the schema, then the counter. */
    method RenameCollection(db: Database, from: string, to: string, ghost s: Session) returns (ok: bool)
      requires Valid() && Holds(db, s)
      modifies this`cache, db`collections, db`schemas, db`counters, cache.Values
      ensures ok == CanRename(s, from, to)
      ensures Valid() && Holds(db, if ok then Renamed(s, from, to) else s) && OthersKept(db)
      ensures !ok ==> cache == old(cache)
      ensures ok && CacheKey(db.name, from) in old(cache) ==>
                CacheKey(db.name, to) in cache && cache[CacheKey(db.name, to)] == old(cache)[CacheKey(db.name, from)]
      ensures forall o :: o in cache.Values ==> o in old(cache).Values || fresh(o)
    {
      if from !in db.collections || to in db.collections { return false; }
      db.collections := db.collections[to := db.collections[from]] - {from};
      ghost var s1 := s.(db := s.db.(collections := Moved(s.db.collections, from, to)));
      MoveSchema(db, from, to, s1);
      db.MoveCounter(from, to);
      return true;
    }

    /** DROP TABLE: the documents, the schema and the counter. */
    method DropTable(db: Database, table: string, ghost s: Session)
      requires Valid() && Holds(db, s)
      modifies this`cache, db`collections, db`schemas, db`counters
      ensures Valid() && Holds(db, Step(s, Drop(table))) && OthersKept(db)
      ensures cache.Values <= old(cache).Values
    {
      db.collections := db.collections - {table};
      Delete(db, table, s.cached, {});
      db.counters := db.counters - {table};
    }

    /** ALTER TABLE: the shared object is changed option by option, and saved once all options are carried out. */
    method AlterTable(db: Database, table: string, opts: seq<AlterOption>, clock: Clock, ghost s: Session) returns (ok: bool)
      requires Valid() && Holds(db, s)
      modifies this`cache, db`collections, db`schemas, db`counters, cache.Values
      ensures Valid() && Holds(db, AlterEnd(Altered(s, table, opts, clock), Seen(s, table).Some?)) && OthersKept(db)
      ensures ok == Altered(s, table, opts, clock).ok
      ensures forall o :: o in cache.Values ==> o in old(cache).Values || fresh(o)
    {
      var schema := Get(db, table, s);
      ghost var start := AlterStart(s, table);
      ghost var a := Altered(s, table, opts, clock);
      var changed;
      ok, changed := CarryOutAll(db, table, opts, clock, schema, start);
      if ok && schema != null && changed {
        SaveAltered(db, schema, a);
      }
    }

    /** The options in turn, up to a rename that is refused. */
    method CarryOutAll(db: Database, table: string, opts: seq<AlterOption>, clock: Clock, schema: TableSchema?, ghost start: Altering)
      returns (ok: bool, changed: bool)
      requires Valid() && Holds(db, start.s) && start.ok && start.table == table && !start.changed
      requires schema != null ==> CacheKey(db.name, table) in cache && cache[CacheKey(db.name, table)] == schema
      modifies this`cache, db`collections, db`schemas, db`counters, cache.Values
      ensures var a := AlterRun(start, opts, schema != null, clock);
              ok == a.ok && Valid() && Holds(db, a.s) && OthersKept(db)
              && (ok ==> changed == a.changed)
              && (ok && schema != null ==> CacheKey(db.name, a.table) in cache && cache[CacheKey(db.name, a.table)] == schema)
      ensures forall o :: o in cache.Values ==> o in old(cache).Values || fresh(o)
    {
      ok, changed := true, false;
      var name := table;
      ghost var known, a := schema != null, start;
      for i := 0 to |opts|
        invariant a == AlterRun(start, opts[..i], known, clock)
        invariant ok && a.ok && a.table == name && a.changed == changed
        invariant Valid() && Holds(db, a.s) && OthersKept(db)
        invariant known ==> CacheKey(db.name, name) in cache && cache[CacheKey(db.name, name)] == schema
        invariant forall o :: o in cache.Values ==> o in old(cache).Values || fresh(o)
      {
        AlterNext(start, opts, i, known, clock);
        ok := CarryOut(db, name, opts[i], clock, schema, a);
        a := AlterStep(a, opts[i], known, clock);
        if !ok {
          RefusedStays(start, opts, i + 1, known, clock);
          return;
        }
        if opts[i].RenameTo? {
          name := opts[i].name;
        }
        changed := changed || (schema != null && !opts[i].OtherOption?);
      }
      assert opts[..|opts|] == opts;
    }

    method SaveAltered(db: Database, schema: TableSchema, ghost a: Altering)
      requires Valid() && Holds(db, a.s) && a.ok && a.changed
      requires CacheKey(db.name, a.table) in cache && cache[CacheKey(db.name, a.table)] == schema
      modifies this`cache, db`schemas
      ensures Valid() && Holds(db, AlterEnd(a, true)) && OthersKept(db) && cache == old(cache)
    {
      assert Entry(CacheKey(db.name, a.table), a.table, a.s.cached[a.table]);
      Save(db, schema, a.s.cached, {});
    }

    /** One option: a rename, or else the documents and the schema object if there is one. */
    method CarryOut(db: Database, table: string, opt: AlterOption, clock: Clock, schema: TableSchema?, ghost a: Altering) returns (ok: bool)
      requires Valid() && Holds(db, a.s) && a.ok && a.table == table
      requires schema != null ==> CacheKey(db.name, table) in cache && cache[CacheKey(db.name, table)] == schema
      modifies this`cache, db`collections, db`schemas, db`counters, cache.Values
      ensures ok == AlterStep(a, opt, schema != null, clock).ok
      ensures Valid() && Holds(db, AlterStep(a, opt, schema != null, clock).s) && OthersKept(db)
      ensures schema != null && ok ==>
                var now := CacheKey(db.name, AlterStep(a, opt, schema != null, clock).table);
                now in cache && cache[now] == schema
      ensures forall o :: o in cache.Values ==> o in old(cache).Values || fresh(o)
    {
      if opt.RenameTo? {
        ok := RenameCollection(db, table, opt.name, a.s);
      } else {
        db.collections := DocsEdited(db.collections, table, opt, clock);
        if schema != null {
          schema.Edit(opt);
        }
        ok := true;
      }
    }
  }

  lemma {:induction false} MovedIs(s: Session, from: string, to: string)
    requires Seen(s, from).Some? && from != to
    ensures var looked := Looked(s, from);
            SchemaMoved(s, from, to)
            == Session(looked.db.(schemas := looked.db.schemas[to := looked.cached[from]] - {from}),
                       looked.cached[to := looked.cached[from]] - {from})
  {
    assert Looked(s, from).cached[to := Looked(s, from).cached[from]] - {from} == SchemaMoved(s, from, to).cached;
  }

  lemma {:induction false} AlterNext(a: Altering, opts: seq<AlterOption>, i: nat, known: bool, clock: Clock)
    requires i < |opts|
    ensures AlterRun(a, opts[..i + 1], known, clock) == AlterStep(AlterRun(a, opts[..i], known, clock), opts[i], known, clock)
  {
    assert opts[..i + 1][..i] == opts[..i];
  }

  lemma {:induction false} RefusedStays(a: Altering, opts: seq<AlterOption>, n: nat, known: bool, clock: Clock)
    requires n <= |opts| && !AlterRun(a, opts[..n], known, clock).ok
    ensures AlterRun(a, opts, known, clock) == AlterRun(a, opts[..n], known, clock)
    decreases |opts|
  {
    if n == |opts| {
      assert opts[..n] == opts;
    } else {
      var m := |opts| - 1;
      assert opts[..m][..n] == opts[..n];
      RefusedStays(a, opts[..m], n, known, clock);
    }
  }

  lemma {:induction false} FillStep(was: seq<Document>, i: nat, cols: seq<ColumnDef>, done: seq<Document>, n: int, clock: Clock)
    requires i < |was|
    ensures var f := FillDoc(was[i], cols, n, clock);
            var now, then_ := FillDocs(was[i..], cols, n, clock), FillDocs(was[i + 1..], cols, f.next, clock);
            done + now.docs == (done + [f.doc]) + then_.docs && now.next == then_.next
  {
    var f := FillDoc(was[i], cols, n, clock);
    var then_ := FillDocs(was[i + 1..], cols, f.next, clock);
    assert was[i..][0] == was[i] && was[i..][1..] == was[i + 1..];
    assert done + ([f.doc] + then_.docs) == (done + [f.doc]) + then_.docs;
  }

  /** Fills ids and defaults into the documents of an INSERT, in place. */
  method ApplyDefaults(db: Database, schema: TableSchema, docs: array<Document>, clock: Clock)
    modifies db`counters, docs
    ensures docs[..] == FillDocs(old(docs[..]), schema.columns, Counter(old(db.counters), schema.tableName), clock).docs
    ensures db.counters == Advanced(old(db.counters), schema.tableName,
                                    FillDocs(old(docs[..]), schema.columns, Counter(old(db.counters), schema.tableName), clock).next)
  {
    var cols, table := schema.columns, schema.tableName;
    ghost var was, n0 := docs[..], Counter(db.counters, table);
    for i := 0 to docs.Length
      invariant docs[i..] == was[i..]
      invariant var rest := FillDocs(was[i..], cols, Counter(db.counters, table), clock);
                FillDocs(was, cols, n0, clock) == FilledAll(docs[..i] + rest.docs, rest.next)
      invariant db.counters == Advanced(old(db.counters), table, Counter(db.counters, table))
      invariant Counter(db.counters, table) >= n0
    {
      assert docs[i] == was[i] by { assert docs[i..][0] == was[i..][0]; }
      FillStep(was, i, cols, docs[..i], Counter(db.counters, table), clock);
      ghost var done := docs[..i];
      FillRow(db, table, cols, docs, i, clock);
      assert docs[..i + 1] == done + [docs[i]];
      assert docs[i + 1..] == was[i + 1..];
    }
    assert docs[..docs.Length] == docs[..];
  }

  /** The inner loop: one document's columns. */
  method FillRow(db: Database, table: string, cols: seq<ColumnDef>, docs: array<Document>, i: nat, clock: Clock)
    requires i < docs.Length
    modifies db`counters, docs
    ensures FillDoc(old(docs[i]), cols, Counter(old(db.counters), table), clock)
            == Filled(docs[i], Counter(db.counters, table))
    ensures forall k :: 0 <= k < docs.Length && k != i ==> docs[k] == old(docs[k])
    ensures db.counters == Advanced(old(db.counters), table, Counter(db.counters, table))
    ensures Counter(db.counters, table) >= Counter(old(db.counters), table)
  {
    for j := 0 to |cols|
      invariant FillDoc(docs[i], cols[j..], Counter(db.counters, table), clock)
                == FillDoc(old(docs[i]), cols, Counter(old(db.counters), table), clock)
      invariant forall k :: 0 <= k < docs.Length && k != i ==> docs[k] == old(docs[k])
      invariant db.counters == Advanced(old(db.counters), table, Counter(db.counters, table))
      invariant Counter(db.counters, table) >= Counter(old(db.counters), table)
    {
      var col := cols[j];
      assert cols[j..][0] == col && cols[j..][1..] == cols[j + 1..];
      if col.name in docs[i] { continue; }
      if col.autoIncrement {
        var val := db.NextAutoIncrement(table);
        docs[i] := docs[i][col.name := Num(val as real)];
        continue;
      }
      if col.hasDefault {
        docs[i] := docs[i][col.name := EvalDefault(col, clock)];
        continue;
      }
    }
    assert cols[|cols|..] == [];
  }

  /** INSERT: defaults where the table has a schema, then the documents. */
  method InsertDocs(store: SchemaStore, db: Database, table: string, rows: seq<Document>, clock: Clock, ghost s: Session)
    requires store.Valid() && store.Holds(db, s)
    modifies store`cache, db`collections, db`counters
    ensures store.Valid() && store.Holds(db, Step(s, Insert(table, rows, clock))) && store.OthersKept(db)
    ensures forall o :: o in store.cache.Values ==> o in old(store.cache).Values || fresh(o)
  {
    var docs := new Document[|rows|](i requires 0 <= i < |rows| => rows[i]);
    assert docs[..] == rows;
    var schema := store.Get(db, table, s);
    if schema != null {
      ApplyDefaults(db, schema, docs, clock);
    }
    db.collections := db.collections[table := RowsOf(db.State(), table) + docs[..]];
  }

  /** One statement. */
  method Execute(store: SchemaStore, db: Database, op: Op, ghost s: Session)
    requires store.Valid() && store.Holds(db, s)
    modifies store`cache, db`collections, db`schemas, db`counters, store.cache.Values
    ensures store.Valid() && store.Holds(db, Step(s, op)) && store.OthersKept(db)
    ensures forall o :: o in store.cache.Values ==> o in old(store.cache).Values || fresh(o)
  {
    match op
    case Create(t, rec) => store.CreateTable(db, t, rec, s);
    case Insert(t, docs, clock) => InsertDocs(store, db, t, docs, clock, s);
    case Alter(t, opts, clock) => var ok := store.AlterTable(db, t, opts, clock, s);
    case Rename(from, to) => var ok := store.RenameCollection(db, from, to, s);
    case Drop(t) => store.DropTable(db, t, s);
    case Describe(t) => var schema := store.Get(db, t, s);
  }

  /** A sequential run does to the database and its part of the cache what the same run on values does. */
  method ExecuteAll(store: SchemaStore, db: Database, ops: seq<Op>, ghost s: Session)
    requires store.Valid() && store.Holds(db, s)
    modifies store`cache, db`collections, db`schemas, db`counters, store.cache.Values
    ensures store.Valid() && store.Holds(db, Run(s, ops)) && store.OthersKept(db)
  {
    for i := 0 to |ops|
      invariant store.Valid() && store.Holds(db, Run(s, ops[..i])) && store.OthersKept(db)
      invariant forall o :: o in store.cache.Values ==> o in old(store.cache).Values || fresh(o)
    {
      assert ops[..i + 1][..i] == ops[..i];
      Execute(store, db, ops[i], Run(s, ops[..i]));
    }
    assert ops[..|ops|] == ops;
  }

  /** What is kept of all other entries keeps every other database's part of the cache. */
  twostate lemma OtherDatabase(store: SchemaStore, db: Database, d: Database, s: Session)
    requires DotFree(db.name) && DotFree(d.name) && db.name != d.name
    requires old(store.Holds(d, s)) && store.OthersKept(db) && d.State() == old(d.State())
    ensures store.Holds(d, s)
  {
    forall t
      ensures Foreign(db.name, CacheKey(d.name, t))
    {
      forall u
        ensures CacheKey(db.name, u) != CacheKey(d.name, t)
      {
        if CacheKey(db.name, u) == CacheKey(d.name, t) {
          CacheKeyInjective(db.name, u, d.name, t);
        }
      }
    }
  }
}
