/** Stable sorting and slicing of sequences, as ORDER BY, LIMIT and OFFSET use them. */
module Ordering {
  import Seqs

  /** Puts x before the elements that need not come before it. */
  function InsertBy<A>(before: (A, A) -> bool, x: A, sorted: seq<A>): (r: seq<A>)
    ensures |r| == |sorted| + 1
  {
    if sorted == [] || !before(sorted[0], x) then [x] + sorted
    else [sorted[0]] + InsertBy(before, x, sorted[1..])
  }

  function SortBy<A>(before: (A, A) -> bool, s: seq<A>): (r: seq<A>)
    ensures |r| == |s|
  {
    if s == [] then [] else InsertBy(before, s[0], SortBy(before, s[1..]))
  }

  /** Skips, and then takes at most `limit`; 0 is no limit. */
  function Slice<A>(skip: nat, limit: nat, s: seq<A>): seq<A> {
    var rest := if skip <= |s| then s[skip..] else [];
    if limit == 0 || |rest| < limit then rest else rest[..limit]
  }

  // ----- a stable sort -----

  /** No element comes after one that it should precede. */
  predicate Sorted<A>(before: (A, A) -> bool, s: seq<A>) {
    forall i, j :: 0 <= i < j < |s| ==> !before(s[j], s[i])
  }

  /** On these elements the order is strict, and elements it does not tell apart are alike to it. */
  ghost predicate Orders<A(!new)>(before: (A, A) -> bool, s: seq<A>) {
    && (forall a :: a in s ==> !before(a, a))
    && (forall a, b :: a in s && b in s ==> !(before(a, b) && before(b, a)))
    && (forall a, b, c :: a in s && b in s && c in s && !before(b, a) && !before(c, b) ==> !before(c, a))
  }

  lemma {:induction false} InsertHolds<A(!new)>(before: (A, A) -> bool, x: A, s: seq<A>)
    ensures multiset(InsertBy(before, x, s)) == multiset{x} + multiset(s)
    ensures forall y :: y in InsertBy(before, x, s) <==> y == x || y in s
  {
    if s != [] && before(s[0], x) {
      InsertHolds(before, x, s[1..]);
      assert s == [s[0]] + s[1..];
    } else {
      assert multiset([x] + s) == multiset{x} + multiset(s);
    }
  }

  lemma {:induction false} SortHolds<A(!new)>(before: (A, A) -> bool, s: seq<A>)
    ensures multiset(SortBy(before, s)) == multiset(s)
    ensures forall x :: x in SortBy(before, s) <==> x in s
  {
    if s != [] {
      SortHolds(before, s[1..]);
      InsertHolds(before, s[0], SortBy(before, s[1..]));
      assert s == [s[0]] + s[1..];
    }
  }

  lemma {:induction false} TailIn<A(!new)>(s: seq<A>)
    requires s != []
    ensures s[0] in s && forall x :: x in s[1..] ==> x in s
  {
  }

  lemma {:induction false} SortedCons<A(!new)>(before: (A, A) -> bool, x: A, s: seq<A>)
    requires Sorted(before, s) && forall y :: y in s ==> !before(y, x)
    ensures Sorted(before, [x] + s)
  {
    var r := [x] + s;
    forall i, j | 0 <= i < j < |r|
      ensures !before(r[j], r[i])
    {
      assert r[j] == s[j - 1];
    }
  }

  lemma {:induction false} InsertSorts<A(!new)>(before: (A, A) -> bool, x: A, s: seq<A>, all: seq<A>)
    requires Sorted(before, s) && Orders(before, all) && x in all && forall y :: y in s ==> y in all
    ensures Sorted(before, InsertBy(before, x, s))
  {
    if s != [] && before(s[0], x) {
      InsertSorts(before, x, s[1..], all);
      InsertHolds(before, x, s[1..]);
      assert s[0] in s && s[0] in all;
      forall y | y in InsertBy(before, x, s[1..])
        ensures !before(y, s[0])
      {
        assert !(before(s[0], x) && before(x, s[0]));
        if y != x {
          assert y in s[1..];
          var i :| 0 <= i < |s| - 1 && s[1..][i] == y;
          assert s[i + 1] == y;
        }
      }
      SortedCons(before, s[0], InsertBy(before, x, s[1..]));
    } else {
      forall y | y in s
        ensures !before(y, x)
      {
        var i :| 0 <= i < |s| && s[i] == y;
        assert s[0] in s && !before(y, s[0]);
      }
      SortedCons(before, x, s);
    }
  }

  /** The result is a permutation of the input, and sorted. */
  lemma {:induction false} SortSorts<A(!new)>(before: (A, A) -> bool, s: seq<A>)
    requires Orders(before, s)
    ensures multiset(SortBy(before, s)) == multiset(s) && Sorted(before, SortBy(before, s))
  {
    SortHolds(before, s);
    if s != [] {
      TailIn(s);
      SortSorts(before, s[1..]);
      SortHolds(before, s[1..]);
      TailIn(s);
      forall y | y in SortBy(before, s[1..])
        ensures y in s
      {
        assert y in s[1..];
      }
      InsertSorts(before, s[0], SortBy(before, s[1..]), s);
    }
  }

  /** Sorting changes nothing exactly if the elements are sorted. */
  lemma {:induction false} SortedExactly<A(!new)>(before: (A, A) -> bool, s: seq<A>)
    requires Orders(before, s)
    ensures SortBy(before, s) == s <==> Sorted(before, s)
  {
    SortSorts(before, s);
    if Sorted(before, s) {
      SortedStays(before, s);
    }
  }

  lemma {:induction false} SortedStays<A(!new)>(before: (A, A) -> bool, s: seq<A>)
    requires Sorted(before, s)
    ensures SortBy(before, s) == s
  {
    if s != [] {
      SortedStays(before, s[1..]);
      if |s| > 1 {
        assert !before(s[1], s[0]);
      }
    }
  }

  // ----- sorting and slicing images -----

  /** `f` takes one order to the other. */
  ghost predicate Carries<A(!new), B>(before: (A, A) -> bool, after: (B, B) -> bool, f: A -> B, s: seq<A>) {
    forall x, y :: x in s && y in s ==> after(f(x), f(y)) == before(x, y)
  }

  lemma {:induction false} InsertMap<A(!new), B>(before: (A, A) -> bool, after: (B, B) -> bool, f: A -> B, x: A, s: seq<A>)
    requires forall y :: y in s ==> after(f(y), f(x)) == before(y, x)
    ensures Seqs.Map(f, InsertBy(before, x, s)) == InsertBy(after, f(x), Seqs.Map(f, s))
  {
    if s != [] {
      assert s[0] in s;
      assert Seqs.Map(f, s)[1..] == Seqs.Map(f, s[1..]);
      if before(s[0], x) {
        InsertMap(before, after, f, x, s[1..]);
      }
    }
  }

  /** Sorting commutes with a map that carries the order. */
  lemma {:induction false} SortMap<A(!new), B>(before: (A, A) -> bool, after: (B, B) -> bool, f: A -> B, s: seq<A>)
    requires Carries(before, after, f, s)
    ensures Seqs.Map(f, SortBy(before, s)) == SortBy(after, Seqs.Map(f, s))
  {
    if s != [] {
      TailIn(s);
      SortMap(before, after, f, s[1..]);
      SortHolds(before, s[1..]);
      forall y | y in SortBy(before, s[1..])
        ensures after(f(y), f(s[0])) == before(y, s[0])
      {
        assert y in s[1..];
        assert y in s && s[0] in s;
      }
      InsertMap(before, after, f, s[0], SortBy(before, s[1..]));
      assert Seqs.Map(f, s)[1..] == Seqs.Map(f, s[1..]);
    }
  }

  lemma {:induction false} SliceMap<A, B>(f: A -> B, skip: nat, limit: nat, s: seq<A>)
    ensures Seqs.Map(f, Slice(skip, limit, s)) == Slice(skip, limit, Seqs.Map(f, s))
  {
    var a, b := Seqs.Map(f, Slice(skip, limit, s)), Slice(skip, limit, Seqs.Map(f, s));
    assert |a| == |b| && forall i :: 0 <= i < |a| ==> a[i] == b[i];
  }

  lemma {:induction false} NeverBefore<A(!new)>(before: (A, A) -> bool, s: seq<A>)
    requires forall x, y :: x in s && y in s ==> !before(x, y)
    ensures SortBy(before, s) == s
  {
    if s != [] {
      assert forall x :: x in s[1..] ==> x in s;
      NeverBefore(before, s[1..]);
      assert s[0] in s && s == [s[0]] + s[1..];
      assert s[1..] != [] ==> s[1] in s;
    }
  }

  // ----- orders that agree -----

  lemma {:induction false} InsertCong<A(!new)>(before: (A, A) -> bool, after: (A, A) -> bool, x: A, s: seq<A>)
    requires forall y :: y in s ==> before(y, x) == after(y, x)
    ensures InsertBy(before, x, s) == InsertBy(after, x, s)
  {
    if s != [] {
      assert s[0] in s;
      InsertCong(before, after, x, s[1..]);
    }
  }

  lemma {:induction false} SortCong<A(!new)>(before: (A, A) -> bool, after: (A, A) -> bool, s: seq<A>)
    requires forall x, y :: x in s && y in s ==> before(x, y) == after(x, y)
    ensures SortBy(before, s) == SortBy(after, s)
  {
    if s != [] {
      TailIn(s);
      SortCong(before, after, s[1..]);
      SortHolds(before, s[1..]);
      InsertCong(before, after, s[0], SortBy(before, s[1..]));
    }
  }

  // ----- slices of distinct elements -----

  lemma {:induction false} DistinctPrefix<A(!new)>(s: seq<A>, n: nat)
    requires n <= |s|
    ensures Seqs.Distinct(s[..n]) <= Seqs.Distinct(s)
    decreases |s|
  {
    if n == |s| {
      assert s[..n] == s;
    } else {
      var m := |s| - 1;
      assert s[..m][..n] == s[..n];
      DistinctPrefix(s[..m], n);
    }
  }

  lemma {:induction false} DistinctShorter<A(!new)>(s: seq<A>)
    ensures |Seqs.Distinct(s)| <= |s| && (|Seqs.Distinct(s)| == |s| ==> Seqs.Distinct(s) == s)
  {
    if s != [] {
      DistinctShorter(s[..|s| - 1]);
    }
  }

  /** The last of these elements is not where it was if there is a duplicate among them. */
  lemma {:induction false} DistinctShifts<A(!new)>(s: seq<A>, i: nat)
    requires i < |s| && i < |Seqs.Distinct(s)| && Seqs.Distinct(s)[i] == s[i]
    ensures Seqs.NoDup(s[..i + 1])
  {
    var d, p := Seqs.Distinct(s), Seqs.Distinct(s[..i + 1]);
    DistinctPrefix(s, i + 1);
    DistinctShorter(s[..i + 1]);
    assert s[..i + 1][i] == s[i] && s[i] in p;
    var j :| 0 <= j < |p| && p[j] == s[i];
    assert d[j] == p[j];
    assert j == i && |p| == i + 1;
    assert p == s[..i + 1];
  }

  /** How many elements a slice reaches into. */
  function Reach<A>(skip: nat, limit: nat, s: seq<A>): (n: nat)
    ensures n <= |s|
  {
    if limit == 0 || |s| < skip + limit then |s| else skip + limit
  }

  /** Slicing without removing duplicates first is right exactly if there are none so far, or nothing is left. */
  lemma {:induction false} DistinctSliceExactly<A(!new)>(skip: nat, limit: nat, s: seq<A>)
    ensures Slice(skip, limit, s) == Slice(skip, limit, Seqs.Distinct(s))
            <==> skip >= |s| || Seqs.NoDup(s[..Reach(skip, limit, s)])
  {
    DistinctShorter(s);
    if skip < |s| && Seqs.NoDup(s[..Reach(skip, limit, s)]) {
      DistinctSliced(skip, limit, s);
    }
    if skip < |s| && Slice(skip, limit, s) == Slice(skip, limit, Seqs.Distinct(s)) {
      SliceShifts(skip, limit, s);
    }
  }

  lemma {:induction false} DistinctSliced<A(!new)>(skip: nat, limit: nat, s: seq<A>)
    requires skip < |s| && Seqs.NoDup(s[..Reach(skip, limit, s)])
    ensures Slice(skip, limit, s) == Slice(skip, limit, Seqs.Distinct(s))
  {
    var d, m := Seqs.Distinct(s), Reach(skip, limit, s);
    Seqs.DistinctOfNoDup(s[..m]);
    DistinctPrefix(s, m);
    assert d[..m] == s[..m];
    if m == |s| {
      DistinctShorter(s);
      assert s[..m] == s && d[..m] == d;
    } else {
      SliceIs(skip, limit, s);
      SliceIs(skip, limit, d);
      assert d[skip..m] == d[..m][skip..] == s[..m][skip..] == s[skip..m];
    }
  }

  lemma {:induction false} SliceIs<A>(skip: nat, limit: nat, s: seq<A>)
    requires skip <= |s|
    ensures Slice(skip, limit, s) == s[skip..Reach(skip, limit, s)]
  {
    if Reach(skip, limit, s) < |s| {
      assert s[skip..][..limit] == s[skip..skip + limit];
    }
  }

  lemma {:induction false} SliceShifts<A(!new)>(skip: nat, limit: nat, s: seq<A>)
    requires skip < |s| && Slice(skip, limit, s) == Slice(skip, limit, Seqs.Distinct(s))
    ensures Seqs.NoDup(s[..Reach(skip, limit, s)])
  {
    var d, m := Seqs.Distinct(s), Reach(skip, limit, s);
    SliceIs(skip, limit, s);
    assert Slice(skip, limit, s)[m - 1 - skip] == s[m - 1];
    SliceIs(skip, limit, d);
    assert Slice(skip, limit, d)[m - 1 - skip] == d[m - 1];
    DistinctShifts(s, m - 1);
    assert s[..m - 1 + 1] == s[..m];
  }

  /** What a slice leaves out. */
  function Cut<A>(skip: nat, limit: nat, s: seq<A>): seq<A> {
    (if skip <= |s| then s[..skip] else s) + s[Reach(skip, limit, s)..]
  }

  lemma {:induction false} CutRest<A>(skip: nat, limit: nat, s: seq<A>)
    ensures multiset(s) == multiset(Slice(skip, limit, s)) + multiset(Cut(skip, limit, s))
    ensures Cut(skip, limit, s) == [] <==> (skip == 0 || s == []) && (limit == 0 || |s| <= skip + limit)
  {
    if skip <= |s| {
      var m := Reach(skip, limit, s);
      SliceIs(skip, limit, s);
      assert s == s[..skip] + s[skip..m] + s[m..];
    } else {
      assert s[|s|..] == [];
    }
  }
}
