/** Running pipelines piece by piece, and the stages of ORDER BY, OFFSET and LIMIT. */
module Stages {
  import opened Bson
  import Ordering
  import M = Mongo
  import JoinTheorem

  /** A stage that is emitted only when needed. */
  function Optional(on: bool, s: M.Stage): seq<M.Stage> {
    if on then [s] else []
  }

  function After(on: bool, s: M.Stage, docs: seq<Document>, db: M.Database): seq<Document> {
    if on then M.RunStage(s, docs, db) else docs
  }

  lemma {:induction false} OptionalRun(p: seq<M.Stage>, on: bool, s: M.Stage, docs: seq<Document>, db: M.Database)
    ensures M.Run(p + Optional(on, s), docs, db) == After(on, s, M.Run(p, docs, db), db)
  {
    JoinTheorem.RunAppend(p, Optional(on, s), docs, db);
    if on {
      assert [s][1..] == [];
    }
  }

  /** $sort, $skip and $limit, each only if asked for; 0 asks for no limit. */
  function Tail(keys: seq<M.SortKey>, skip: nat, limit: nat): seq<M.Stage> {
    Optional(keys != [], M.Sort(keys)) + Optional(skip > 0, M.Skip(skip)) + Optional(limit > 0, M.Limit(limit))
  }

  /** The appends that emit them. */
  method AppendTail(pipeline: seq<M.Stage>, keys: seq<M.SortKey>, skip: nat, limit: nat) returns (r: seq<M.Stage>)
    ensures r == pipeline + Tail(keys, skip, limit)
  {
    r := pipeline;
    if |keys| > 0 { r := r + [M.Sort(keys)]; }
    if skip > 0 { r := r + [M.Skip(skip)]; }
    if limit > 0 { r := r + [M.Limit(limit)]; }
  }

  function InOrder(keys: seq<M.SortKey>, docs: seq<Document>): seq<Document> {
    if keys == [] then docs else M.SortDocs(keys, docs)
  }

  function Turns(next: (bool, M.Stage, seq<Document>) -> seq<Document>, keys: seq<M.SortKey>, skip: nat, limit: nat,
                 docs: seq<Document>): seq<Document>
  {
    next(limit > 0, M.Limit(limit), next(skip > 0, M.Skip(skip), next(keys != [], M.Sort(keys), docs)))
  }

  /** Any way to run stages that takes them one after the other. */
  lemma {:induction false} InTurn(run: (seq<M.Stage>, seq<Document>) -> seq<Document>, next: (bool, M.Stage, seq<Document>) -> seq<Document>,
               keys: seq<M.SortKey>, skip: nat, limit: nat, docs: seq<Document>)
    requires forall p, on, s, ds :: run(p + Optional(on, s), ds) == next(on, s, run(p, ds))
    requires forall ds :: run([], ds) == ds
    ensures run(Tail(keys, skip, limit), docs) == Turns(next, keys, skip, limit, docs)
  {
    assert [] + Optional(keys != [], M.Sort(keys)) == Optional(keys != [], M.Sort(keys));
  }

  function Runner(db: M.Database): (seq<M.Stage>, seq<Document>) -> seq<Document> {
    (p: seq<M.Stage>, docs: seq<Document>) => M.Run(p, docs, db)
  }

  function Follower(db: M.Database): (bool, M.Stage, seq<Document>) -> seq<Document> {
    (on: bool, s: M.Stage, docs: seq<Document>) => After(on, s, docs, db)
  }

  lemma {:induction false} RunsInTurn(db: M.Database)
    ensures forall p, on, s, docs :: Runner(db)(p + Optional(on, s), docs) == Follower(db)(on, s, Runner(db)(p, docs))
    ensures forall docs :: Runner(db)([], docs) == docs
  {
    forall p, on, s, docs
      ensures Runner(db)(p + Optional(on, s), docs) == Follower(db)(on, s, Runner(db)(p, docs))
    {
      OptionalRun(p, on, s, docs, db);
    }
  }

  lemma {:induction false} SortAfter(keys: seq<M.SortKey>, docs: seq<Document>, db: M.Database)
    ensures After(keys != [], M.Sort(keys), docs, db) == InOrder(keys, docs)
  {
  }

  lemma {:induction false} SliceAfter(skip: nat, limit: nat, docs: seq<Document>, db: M.Database)
    ensures After(limit > 0, M.Limit(limit), After(skip > 0, M.Skip(skip), docs, db), db) == Ordering.Slice(skip, limit, docs)
  {
  }

  lemma {:induction false} TurnsAre(keys: seq<M.SortKey>, skip: nat, limit: nat, docs: seq<Document>, db: M.Database)
    ensures Turns(Follower(db), keys, skip, limit, docs) == Ordering.Slice(skip, limit, InOrder(keys, docs))
  {
    SortAfter(keys, docs, db);
    SliceAfter(skip, limit, InOrder(keys, docs), db);
  }

  lemma {:induction false} RunnerRuns(p: seq<M.Stage>, docs: seq<Document>, db: M.Database)
    ensures Runner(db)(p, docs) == M.Run(p, docs, db)
  {
  }

  /** Together they sort stably and slice. */
  lemma {:induction false} TailRun(keys: seq<M.SortKey>, skip: nat, limit: nat, docs: seq<Document>, db: M.Database)
    ensures M.Run(Tail(keys, skip, limit), docs, db) == Ordering.Slice(skip, limit, InOrder(keys, docs))
  {
    RunsInTurn(db);
    InTurn(Runner(db), Follower(db), keys, skip, limit, docs);
    TurnsAre(keys, skip, limit, docs, db);
    RunnerRuns(Tail(keys, skip, limit), docs, db);
  }
}
