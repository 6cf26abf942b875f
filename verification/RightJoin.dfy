/** A RIGHT JOIN of two tables is planned as the LEFT JOIN the other way round (source.go). */
module RightJoin {
  import opened Wrappers
  import opened Bson
  import opened Sql
  import opened Source
  import opened JoinTheorem
  import M = Mongo
  import Seqs

  // ----- pairs of two sequences, listed by either side -----

  function PairWith<A, B, C>(h: (A, B) -> C, a: A): B -> C {
    (b: B) => h(a, b)
  }

  function WithPair<A, B, C>(h: (A, B) -> C, b: B): A -> C {
    (a: A) => h(a, b)
  }

  function ByLeft<A(!new), B(!new), C>(p: (A, B) -> bool, h: (A, B) -> C, right: seq<B>): A -> seq<C> {
    (a: A) => Seqs.Map(PairWith(h, a), Seqs.Filter(PairWith(p, a), right))
  }

  function ByRight<A(!new), B(!new), C>(p: (A, B) -> bool, h: (A, B) -> C, left: seq<A>): B -> seq<C> {
    (b: B) => Seqs.Map(WithPair(h, b), Seqs.Filter(WithPair(p, b), left))
  }

  lemma {:induction false} NothingRight<A(!new), B(!new), C>(p: (A, B) -> bool, h: (A, B) -> C, left: seq<A>)
    ensures Seqs.FlatMap(ByLeft(p, h, []), left) == []
  {
    if left != [] {
      NothingRight(p, h, left[1..]);
    }
  }

  lemma {:induction false} OneMoreRight<A(!new), B(!new), C>(p: (A, B) -> bool, h: (A, B) -> C, left: seq<A>, right: seq<B>)
    requires right != []
    ensures multiset(Seqs.FlatMap(ByLeft(p, h, right), left))
            == multiset(ByRight(p, h, left)(right[0])) + multiset(Seqs.FlatMap(ByLeft(p, h, right[1..]), left))
  {
    if left != [] {
      OneMoreRight(p, h, left[1..], right);
      var a, b := left[0], right[0];
      assert ByLeft(p, h, right)(a) == (if p(a, b) then [h(a, b)] else []) + ByLeft(p, h, right[1..])(a);
      assert ByRight(p, h, left)(b) == (if p(a, b) then [h(a, b)] else []) + ByRight(p, h, left[1..])(b);
    }
  }

  /** Either listing holds each matching pair once. */
  lemma {:induction false} Exchange<A(!new), B(!new), C>(p: (A, B) -> bool, h: (A, B) -> C, left: seq<A>, right: seq<B>)
    ensures multiset(Seqs.FlatMap(ByLeft(p, h, right), left)) == multiset(Seqs.FlatMap(ByRight(p, h, left), right))
  {
    if right == [] {
      NothingRight(p, h, left);
    } else {
      OneMoreRight(p, h, left, right);
      Exchange(p, h, left, right[1..]);
    }
  }

  // ----- RIGHT JOIN by its definition (ISO/IEC 9075:1992, 7.5) -----

  function PairRow(a: string, b: string): (Document, Document) -> Row {
    (l: Document, r: Document) => map[a := Some(l), b := Some(r)]
  }

  function PairHolds(on: Expr, a: string, b: string): (Document, Document) -> bool {
    (l: Document, r: Document) => OnHolds(on, map[a := Some(l), b := Some(r)], b)
  }

  function Alone(a: string, b: string): Document -> Row {
    (r: Document) => map[a := None, b := Some(r)]
  }

  function Unmatched(on: Expr, a: string, b: string, left: seq<Document>): Document -> bool {
    (r: Document) => Seqs.Filter(WithPair(PairHolds(on, a, b), r), left) == []
  }

  /** The joined pairs, left table first, and then each right row that no left row joins. */
  function RightJoinRows(on: Expr, a: string, left: seq<Document>, b: string, right: seq<Document>): seq<Row> {
    Seqs.FlatMap(ByLeft(PairHolds(on, a, b), PairRow(a, b), right), left)
    + Seqs.Map(Alone(a, b), Seqs.Filter(Unmatched(on, a, b, left), right))
  }

  // ----- the swapped LEFT JOIN -----

  lemma {:induction false} SwappedRow(on: Expr, a: string, left: seq<Document>, b: string, r: Document)
    requires a != b
    ensures JoinRow(on, a, left, true, b)(map[b := Some(r)])
            == ByRight(PairHolds(on, a, b), PairRow(a, b), left)(r)
               + if Unmatched(on, a, b, left)(r) then [Alone(a, b)(r)] else []
  {
    var row: Row := map[b := Some(r)];
    var found := Seqs.Filter(Joins(on, row, a, b), left);
    SwappedFound(on, a, left, b, r);
    SwappedPairs(a, b, r, found);
    assert row[a := None] == map[a := None, b := Some(r)];
    assert JoinRow(on, a, left, true, b)(row) == RowsFor(row, a, true, found);
  }

  lemma {:induction false} SwappedPairs(a: string, b: string, r: Document, found: seq<Document>)
    requires a != b
    ensures Seqs.Map(With(map[b := Some(r)], a), found) == Seqs.Map(WithPair(PairRow(a, b), r), found)
  {
    forall l | l in found
      ensures With(map[b := Some(r)], a)(l) == WithPair(PairRow(a, b), r)(l)
    {
    }
    Seqs.MapCong(With(map[b := Some(r)], a), WithPair(PairRow(a, b), r), found);
  }

  lemma {:induction false} SwappedFound(on: Expr, a: string, left: seq<Document>, b: string, r: Document)
    requires a != b
    ensures Seqs.Filter(Joins(on, map[b := Some(r)], a, b), left)
            == Seqs.Filter(WithPair(PairHolds(on, a, b), r), left)
  {
    var row: Row := map[b := Some(r)];
    forall l | l in left
      ensures Joins(on, row, a, b)(l) == WithPair(PairHolds(on, a, b), r)(l)
    {
      assert row[a := Some(l)] == map[a := Some(l), b := Some(r)];
    }
    Seqs.FilterCong(Joins(on, row, a, b), WithPair(PairHolds(on, a, b), r), left);
  }

  lemma {:induction false} SwappedRows(on: Expr, a: string, left: seq<Document>, b: string, right: seq<Document>)
    requires a != b
    ensures multiset(Seqs.FlatMap(JoinRow(on, a, left, true, b), Seqs.Map(With(map[], b), right)))
            == multiset(Seqs.FlatMap(ByRight(PairHolds(on, a, b), PairRow(a, b), left), right))
               + multiset(Seqs.Map(Alone(a, b), Seqs.Filter(Unmatched(on, a, b, left), right)))
  {
    if right != [] {
      SwappedRows(on, a, left, b, right[1..]);
      SwappedRow(on, a, left, b, right[0]);
      assert Seqs.Map(With(map[], b), right)[1..] == Seqs.Map(With(map[], b), right[1..]);
      assert With(map[], b)(right[0]) == map[b := Some(right[0])];
    }
  }

  lemma {:induction false} PlannedRight(on: Expr, l: TableExpr, r: TableExpr, db: M.Database)
    requires l.Table? && r.Table?
    ensures SqlFrom(Join(RightJoin, l, r, Some(on)), db)
            == Seqs.FlatMap(JoinRow(on, AliasOf(l), M.Collection(db, l.collection), true, AliasOf(r)),
                            Seqs.Map(With(map[], AliasOf(r)), M.Collection(db, r.collection)))
  {
    assert MainAlias(Join(RightJoin, l, r, Some(on))) == AliasOf(r);
  }

  /** The rows of the LEFT JOIN planned for a RIGHT JOIN are those of the RIGHT JOIN. */
  lemma {:induction false} RightIsSwappedLeft(on: Expr, l: TableExpr, r: TableExpr, db: M.Database)
    requires l.Table? && r.Table? && AliasOf(l) != AliasOf(r)
    ensures multiset(SqlFrom(Join(RightJoin, l, r, Some(on)), db))
            == multiset(RightJoinRows(on, AliasOf(l), M.Collection(db, l.collection), AliasOf(r), M.Collection(db, r.collection)))
  {
    var a, b := AliasOf(l), AliasOf(r);
    var left, right := M.Collection(db, l.collection), M.Collection(db, r.collection);
    PlannedRight(on, l, r, db);
    SwappedRows(on, a, left, b, right);
    Exchange(PairHolds(on, a, b), PairRow(a, b), left, right);
  }
}
