/** What holds over whole runs of statements: ids increase, and when the cache agrees with the store. */
module Runs {
  import opened Bson
  import opened Tables
  import opened Statements

  // ----- ids -----

  function IdsOf(issued: map<string, seq<int>>, table: string): seq<int> {
    if table in issued then issued[table] else []
  }

  function Followed(issued: map<string, seq<int>>, from: string, to: string): map<string, seq<int>> {
    (issued - {from})[to := IdsOf(issued, from)]
  }

  /** Ids follow a table through the renames of an ALTER. */
  function TrackAlter(issued: map<string, seq<int>>, a: Altering, opts: seq<AlterOption>, known: bool, clock: Clock): map<string, seq<int>>
  {
    if opts == [] then issued
    else
      var n := |opts| - 1;
      var before, b := TrackAlter(issued, a, opts[..n], known, clock), AlterRun(a, opts[..n], known, clock);
      if b.ok && opts[n].RenameTo? && CanRename(b.s, b.table, opts[n].name) then Followed(before, b.table, opts[n].name)
      else before
  }

  /** The ids that an INSERT writes into the documents it stores. */
  function IdsWritten(s: Session, table: string, docs: seq<Document>, clock: Clock): seq<int> {
    var seen := Seen(s, table);
    if seen.Some? then WrittenAll(docs, seen.value.columns, Inserted(s, table, docs, clock).docs) else []
  }

  /** The ids written so far for each table now there. */
  function Track(issued: map<string, seq<int>>, s: Session, op: Op): map<string, seq<int>> {
    match op
    case Insert(t, docs, clock) => issued[t := IdsOf(issued, t) + IdsWritten(s, t, docs, clock)]
    case Rename(from, to) => if CanRename(s, from, to) then Followed(issued, from, to) else issued
    case Alter(t, opts, clock) => TrackAlter(issued, AlterStart(s, t), opts, Seen(s, t).Some?, clock)
    case Drop(t) => issued - {t}
    case Create(_, _) => issued
    case Describe(_) => issued
  }

  function TrackAll(s: Session, ops: seq<Op>): map<string, seq<int>> {
    if ops == [] then map[]
    else
      var n := |ops| - 1;
      Track(TrackAll(s, ops[..n]), Run(s, ops[..n]), ops[n])
  }

  predicate Increasing(ids: seq<int>) {
    forall i, j :: 0 <= i < j < |ids| ==> ids[i] < ids[j]
  }

  predicate Below(ids: seq<int>, n: int) {
    forall i :: 0 <= i < |ids| ==> ids[i] <= n
  }

  /** No table's counter is behind the ids written for it. */
  predicate Tracked(issued: map<string, seq<int>>, counters: map<string, int>) {
    forall t :: t in issued ==> Increasing(issued[t]) && Below(issued[t], Counter(counters, t))
                                && (issued[t] != [] ==> t in counters)
  }

  lemma {:induction false} IdsAppended(ids: seq<int>, n: int, next: int)
    requires Increasing(ids) && Below(ids, n) && n <= next
    ensures Increasing(ids + IdsFrom(n, next)) && Below(ids + IdsFrom(n, next), next)
    ensures n == next ==> IdsFrom(n, next) == []
  {
    IdsFromAre(n, next);
  }

  lemma {:induction false} IdsFollow(s: Session, table: string, docs: seq<Document>, clock: Clock)
    ensures var n, f := Counter(s.db.counters, table), Inserted(s, table, docs, clock);
            n <= f.next && IdsWritten(s, table, docs, clock) == IdsFrom(n, f.next)
  {
    var n := Counter(s.db.counters, table);
    if Seen(s, table).Some? {
      WrittenAllAre(docs, Seen(s, table).value.columns, n, clock);
    } else {
      assert IdsFrom(n, n) == [];
    }
  }

  lemma {:induction false} TrackInsert(issued: map<string, seq<int>>, s: Session, table: string, docs: seq<Document>, clock: Clock)
    requires Tracked(issued, s.db.counters)
    ensures Tracked(issued[table := IdsOf(issued, table) + IdsWritten(s, table, docs, clock)],
                    Advanced(s.db.counters, table, Inserted(s, table, docs, clock).next))
  {
    var n, next := Counter(s.db.counters, table), Inserted(s, table, docs, clock).next;
    IdsFollow(s, table, docs, clock);
    IdsAppended(IdsOf(issued, table), n, next);
  }

  lemma {:induction false} TrackRenamed(issued: map<string, seq<int>>, s: Session, from: string, to: string)
    requires Tracked(issued, s.db.counters) && CanRename(s, from, to)
    ensures Tracked(Followed(issued, from, to), Renamed(s, from, to).db.counters)
  {
    assert Renamed(s, from, to).db.counters == Moved(s.db.counters, from, to);
  }

  lemma {:induction false} TrackOptions(issued: map<string, seq<int>>, a: Altering, opts: seq<AlterOption>, known: bool, clock: Clock)
    requires Tracked(issued, a.s.db.counters)
    ensures Tracked(TrackAlter(issued, a, opts, known, clock), AlterRun(a, opts, known, clock).s.db.counters)
  {
    if opts != [] {
      var n := |opts| - 1;
      TrackOptions(issued, a, opts[..n], known, clock);
      var b := AlterRun(a, opts[..n], known, clock);
      if b.ok && opts[n].RenameTo? && CanRename(b.s, b.table, opts[n].name) {
        TrackRenamed(TrackAlter(issued, a, opts[..n], known, clock), b.s, b.table, opts[n].name);
      }
    }
  }

  lemma {:induction false} TrackStep(issued: map<string, seq<int>>, s: Session, op: Op)
    requires Tracked(issued, s.db.counters)
    ensures Tracked(Track(issued, s, op), Step(s, op).db.counters)
  {
    match op
    case Insert(t, docs, clock) => TrackInsert(issued, s, t, docs, clock);
    case Rename(from, to) => if CanRename(s, from, to) { TrackRenamed(issued, s, from, to); }
    case Alter(t, opts, clock) => TrackOptions(issued, AlterStart(s, t), opts, Seen(s, t).Some?, clock);
    case _ =>
  }

  /** Over every run, the ids written for a table, followed through renames, strictly increase. */
  lemma {:induction false} IdsIncrease(s: Session, ops: seq<Op>)
    ensures Tracked(TrackAll(s, ops), Run(s, ops).db.counters)
  {
    if ops != [] {
      var n := |ops| - 1;
      IdsIncrease(s, ops[..n]);
      TrackStep(TrackAll(s, ops[..n]), Run(s, ops[..n]), ops[n]);
    }
  }

  // ----- ALTER and the cache -----

  function EditAll(rec: TableRecord, opts: seq<AlterOption>): TableRecord {
    if opts == [] then rec else Edited(EditAll(rec, opts[..|opts| - 1]), opts[|opts| - 1])
  }

  /** How many options there are up to the last rename. */
  function UpToRename(opts: seq<AlterOption>): (n: nat)
    ensures n <= |opts|
  {
    if opts == [] then 0
    else if opts[|opts| - 1].RenameTo? then |opts|
    else UpToRename(opts[..|opts| - 1])
  }

  /** How many options are carried out before a rename is refused. */
  function Done(s: Session, table: string, opts: seq<AlterOption>, clock: Clock): (n: nat)
    ensures n <= |opts|
  {
    if opts == [] then 0
    else
      var n := Done(s, table, opts[..|opts| - 1], clock);
      if n == |opts| - 1 && Altered(s, table, opts, clock).ok then |opts| else n
  }

  /** A rename is refused, and since the last one that was not the schema object has been changed. */
  predicate LeavesUnsaved(s: Session, table: string, opts: seq<AlterOption>, clock: Clock) {
    var done := opts[..Done(s, table, opts, clock)];
    done != opts && Seen(s, table).Some?
    && var rec := Seen(s, table).value;
       EditAll(rec, done) != EditAll(rec, done[..UpToRename(done)])
  }

  /** In the middle of an ALTER only the table altered may differ from what is stored, by the edits since it was saved. */
  predicate Midway(a: Altering, known: bool, rec: TableRecord, done: seq<AlterOption>) {
    (forall t :: t in a.s.cached && !(known && t == a.table) ==> t in a.s.db.schemas && a.s.db.schemas[t] == a.s.cached[t])
    && (known ==>
          a.table in a.s.cached && a.table in a.s.db.schemas
          && a.s.cached[a.table] == EditAll(rec, done)
          && a.s.db.schemas[a.table] == EditAll(rec, done[..UpToRename(done)])
          && (!a.changed ==> a.s.cached[a.table] == a.s.db.schemas[a.table]))
  }

  lemma {:induction false} MidwayEdit(a: Altering, known: bool, rec: TableRecord, done: seq<AlterOption>, opt: AlterOption, clock: Clock)
    requires a.ok && !opt.RenameTo? && Midway(a, known, rec, done)
    ensures AlterStep(a, opt, known, clock).ok && Midway(AlterStep(a, opt, known, clock), known, rec, done + [opt])
  {
    var more := done + [opt];
    assert more[..|more| - 1] == done;
    assert more[..UpToRename(more)] == done[..UpToRename(done)];
  }

  lemma {:induction false} MidwayRename(a: Altering, known: bool, rec: TableRecord, done: seq<AlterOption>, name: string, clock: Clock)
    requires a.ok && Midway(a, known, rec, done) && CanRename(a.s, a.table, name)
    ensures Midway(AlterStep(a, RenameTo(name), known, clock), known, rec, done + [RenameTo(name)])
    ensures AlterStep(a, RenameTo(name), known, clock).ok
  {
    var more := done + [RenameTo(name)];
    assert more[..|more| - 1] == done && more[..|more|] == more;
    assert a.table != name;
  }

  /** The run up to the first refusal, and the refusal. */
  lemma {:induction false} MidwayRun(s: Session, table: string, opts: seq<AlterOption>, clock: Clock)
    requires Agree(s)
    ensures var a := Altered(s, table, opts, clock);
            var done := opts[..Done(s, table, opts, clock)];
            var seen := Seen(s, table);
            (a.ok <==> done == opts) && Midway(a, seen.Some?, if seen.Some? then seen.value else TableRecord([], []), done)
  {
    var seen := Seen(s, table);
    if opts != [] {
      var n := |opts| - 1;
      var before, opt := opts[..n], opts[n];
      MidwayRun(s, table, before, clock);
      var b, a := Altered(s, table, before, clock), Altered(s, table, opts, clock);
      assert a == AlterStep(b, opt, seen.Some?, clock);
      assert opts == before + [opt];
      var rec := if seen.Some? then seen.value else TableRecord([], []);
      if !b.ok {
        assert opts[..Done(s, table, opts, clock)] == before[..Done(s, table, before, clock)];
      } else {
        assert before[..Done(s, table, before, clock)] == before;
        assert Done(s, table, before, clock) == n;
        if !opt.RenameTo? {
          MidwayEdit(b, seen.Some?, rec, before, opt, clock);
          assert opts[..|opts|] == opts;
        } else if CanRename(b.s, b.table, opt.name) {
          MidwayRename(b, seen.Some?, rec, before, opt.name, clock);
          assert opts[..|opts|] == opts;
        } else {
          assert opts[..n] == before;
        }
      }
    }
  }

  /** After an ALTER the cache agrees with the store exactly if it left no change unsaved. */
  lemma {:induction false} AlterAgreesExactly(s: Session, table: string, opts: seq<AlterOption>, clock: Clock)
    requires Agree(s)
    ensures Agree(Step(s, Alter(table, opts, clock))) <==> !LeavesUnsaved(s, table, opts, clock)
  {
    MidwayRun(s, table, opts, clock);
    var a, known := Altered(s, table, opts, clock), Seen(s, table).Some?;
    var end := AlterEnd(a, known);
    assert Step(s, Alter(table, opts, clock)) == end;
    if known && a.ok {
      assert end.cached[a.table] == end.db.schemas[a.table];
    }
  }

  /** Every other statement keeps the agreement. */
  lemma {:induction false} StepAgrees(s: Session, op: Op)
    requires Agree(s) && !op.Alter?
    ensures Agree(Step(s, op))
  {
  }

  predicate Breaks(s: Session, op: Op) {
    op.Alter? && LeavesUnsaved(s, op.table, op.opts, op.clock)
  }

  lemma {:induction false} StepAgreesExactly(s: Session, op: Op)
    requires Agree(s)
    ensures Agree(Step(s, op)) <==> !Breaks(s, op)
  {
    if op.Alter? {
      AlterAgreesExactly(s, op.table, op.opts, op.clock);
    } else {
      StepAgrees(s, op);
    }
  }

  /** The statements of a run keep the agreement one after the other. */
  predicate NeverBreaks(s: Session, ops: seq<Op>) {
    forall i :: 0 <= i < |ops| ==> !Breaks(Run(s, ops[..i]), ops[i])
  }

  /** The cache agrees with the store after every statement of a run exactly if no ALTER in it leaves a change unsaved. */
  lemma {:induction false} RunAgreesExactly(s: Session, ops: seq<Op>)
    requires Agree(s)
    ensures (forall i :: 0 <= i <= |ops| ==> Agree(Run(s, ops[..i]))) <==> NeverBreaks(s, ops)
  {
    if forall i :: 0 <= i <= |ops| ==> Agree(Run(s, ops[..i])) {
      forall i | 0 <= i < |ops|
        ensures !Breaks(Run(s, ops[..i]), ops[i])
      {
        RunStep(s, ops, i);
        assert Agree(Run(s, ops[..i])) && Agree(Run(s, ops[..i + 1]));
        StepAgreesExactly(Run(s, ops[..i]), ops[i]);
      }
    }
    if NeverBreaks(s, ops) {
      forall i | 0 <= i <= |ops|
        ensures Agree(Run(s, ops[..i]))
      {
        AgreesUpTo(s, ops, i);
      }
    }
  }

  lemma {:induction false} RunStep(s: Session, ops: seq<Op>, i: nat)
    requires i < |ops|
    ensures Run(s, ops[..i + 1]) == Step(Run(s, ops[..i]), ops[i])
  {
    assert ops[..i + 1][..i] == ops[..i];
  }

  lemma {:induction false} AgreesUpTo(s: Session, ops: seq<Op>, i: nat)
    requires Agree(s) && NeverBreaks(s, ops) && i <= |ops|
    ensures Agree(Run(s, ops[..i]))
  {
    if i > 0 {
      AgreesUpTo(s, ops, i - 1);
      RunStep(s, ops, i - 1);
      StepAgreesExactly(Run(s, ops[..i - 1]), ops[i - 1]);
    }
  }

  /** Where tables t and u are there, ALTER TABLE t ADD COLUMN ..., RENAME TO u is refused and leaves the columns in the cache only. */
  lemma {:induction false} RefusedRenameBreaks(s: Session, t: string, u: string, cols: seq<ColumnDef>, clock: Clock)
    requires Agree(s) && Seen(s, t).Some? && t in s.db.collections && u in s.db.collections && cols != []
    ensures var end := Step(s, Alter(t, [AddColumns(cols), RenameTo(u)], clock));
            var rec := Seen(s, t).value;
            t in end.cached && end.cached[t] == rec.(columns := rec.columns + cols)
            && t in end.db.schemas && end.db.schemas[t] == rec && !Agree(end)
  {
    var opts, start, rec := [AddColumns(cols), RenameTo(u)], AlterStart(s, t), Seen(s, t).value;
    assert opts[..1] == [AddColumns(cols)] && opts[..1][..0] == [];
    assert AlterRun(start, opts[..1][..0], true, clock) == start;
    var one := AlterRun(start, opts[..1], true, clock);
    assert one == AlterStep(start, AddColumns(cols), true, clock);
    assert Altered(s, t, opts, clock) == AlterStep(one, RenameTo(u), true, clock);
    assert |rec.columns + cols| > |rec.columns|;
  }

  /** Such a session: tables t and u, t with one column. */
  lemma {:induction false} RefusedRenameHappens(clock: Clock)
    ensures exists s: Session, t: string, u: string, cols: seq<ColumnDef> ::
              Agree(s) && !Agree(Step(s, Alter(t, [AddColumns(cols), RenameTo(u)], clock)))
  {
    var a, c := ColumnDef("a", false, false, "", false), ColumnDef("c", false, false, "", false);
    var s := Session(DbState(map["t" := [], "u" := []], map["t" := TableRecord([a], [])], map[]), map[]);
    RefusedRenameBreaks(s, "t", "u", [c], clock);
  }
}
