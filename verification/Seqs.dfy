/** Maps, filters and multisets over sequences, as the query semantics use them. */
module Seqs {

  function Map<A, B>(f: A -> B, s: seq<A>): (r: seq<B>)
    ensures |r| == |s|
    ensures forall i :: 0 <= i < |s| ==> r[i] == f(s[i])
  {
    if s == [] then [] else [f(s[0])] + Map(f, s[1..])
  }

  function Filter<A(!new)>(p: A -> bool, s: seq<A>): (r: seq<A>)
    ensures |r| <= |s|
    ensures forall x :: x in r <==> x in s && p(x)
  {
    if s == [] then []
    else if p(s[0]) then [s[0]] + Filter(p, s[1..])
    else Filter(p, s[1..])
  }

  function FlatMap<A, B>(f: A -> seq<B>, s: seq<A>): seq<B> {
    if s == [] then [] else f(s[0]) + FlatMap(f, s[1..])
  }

  lemma {:induction false} MapAppend<A, B>(f: A -> B, a: seq<A>, b: seq<A>)
    ensures Map(f, a + b) == Map(f, a) + Map(f, b)
  {
    if a == [] {
      assert a + b == b;
    } else {
      assert (a + b)[1..] == a[1..] + b;
      MapAppend(f, a[1..], b);
    }
  }

  lemma {:induction false} MapCong<A, B>(f: A -> B, g: A -> B, s: seq<A>)
    requires forall x :: x in s ==> f(x) == g(x)
    ensures Map(f, s) == Map(g, s)
  {
    if s != [] {
      MapCong(f, g, s[1..]);
    }
  }

  lemma {:induction false} FilterAll<A(!new)>(p: A -> bool, s: seq<A>)
    requires forall x :: x in s ==> p(x)
    ensures Filter(p, s) == s
  {
    if s != [] {
      assert s[0] in s;
      FilterAll(p, s[1..]);
      assert s == [s[0]] + s[1..];
    }
  }

  lemma {:induction false} FilterCong<A(!new)>(p: A -> bool, q: A -> bool, s: seq<A>)
    requires forall x :: x in s ==> p(x) == q(x)
    ensures Filter(p, s) == Filter(q, s)
  {
    if s != [] {
      assert s[0] in s;
      FilterCong(p, q, s[1..]);
    }
  }

  /** Filtering images is the same as taking images of the filtered. */
  lemma {:induction false} FilterMap<A(!new), B(!new)>(p: B -> bool, f: A -> B, q: A -> bool, s: seq<A>)
    requires forall x :: x in s ==> q(x) == p(f(x))
    ensures Filter(p, Map(f, s)) == Map(f, Filter(q, s))
  {
    if s != [] {
      assert s[0] in s;
      assert Map(f, s)[1..] == Map(f, s[1..]);
      FilterMap(p, f, q, s[1..]);
    }
  }

  lemma {:induction false} MapMap<A, B, C>(g: B -> C, f: A -> B, h: A -> C, s: seq<A>)
    requires forall x :: x in s ==> h(x) == g(f(x))
    ensures Map(g, Map(f, s)) == Map(h, s)
  {
    if s != [] {
      assert s[0] in s;
      assert Map(f, s)[1..] == Map(f, s[1..]);
      MapMap(g, f, h, s[1..]);
    }
  }

  /** A flat map over images, when each piece is itself an image. */
  lemma {:induction false} FlatMapMap<A, B, C, D>(
      g: B -> seq<D>, f: A -> B, k: A -> seq<C>, h: C -> D, s: seq<A>)
    requires forall x :: x in s ==> g(f(x)) == Map(h, k(x))
    ensures FlatMap(g, Map(f, s)) == Map(h, FlatMap(k, s))
  {
    if s != [] {
      assert s[0] in s;
      assert Map(f, s)[1..] == Map(f, s[1..]);
      FlatMapMap(g, f, k, h, s[1..]);
      MapAppend(h, k(s[0]), FlatMap(k, s[1..]));
    }
  }

  function RemoveAt<A>(b: seq<A>, i: nat): seq<A>
    requires i < |b|
  {
    if i == 0 then b[1..] else [b[0]] + RemoveAt(b[1..], i - 1)
  }

  lemma {:induction false} TakeOut<A>(b: seq<A>, i: nat)
    requires i < |b|
    ensures multiset(b) == multiset{b[i]} + multiset(RemoveAt(b, i))
    ensures |RemoveAt(b, i)| == |b| - 1
  {
    assert b == [b[0]] + b[1..];
    if i > 0 {
      TakeOut(b[1..], i - 1);
    }
  }

  lemma {:induction false} TakeOutMap<A, B>(f: A -> B, b: seq<A>, i: nat)
    requires i < |b|
    ensures multiset(Map(f, b)) == multiset{f(b[i])} + multiset(Map(f, RemoveAt(b, i)))
  {
    MapRemoved(f, b, i);
    TakeOut(Map(f, b), i);
  }

  lemma {:induction false} MapRemoved<A, B>(f: A -> B, b: seq<A>, i: nat)
    requires i < |b|
    ensures Map(f, RemoveAt(b, i)) == RemoveAt(Map(f, b), i)
  {
    assert Map(f, b)[1..] == Map(f, b[1..]);
    if i > 0 {
      MapRemoved(f, b[1..], i - 1);
      assert Map(f, [b[0]] + RemoveAt(b[1..], i - 1)) == [f(b[0])] + Map(f, RemoveAt(b[1..], i - 1));
    }
  }

  lemma {:induction false} Cancel<A>(x: A, m: multiset<A>, n: multiset<A>)
    requires multiset{x} + m == multiset{x} + n
    ensures m == n
  {
    assert m == (multiset{x} + m) - multiset{x};
    assert n == (multiset{x} + n) - multiset{x};
  }

  lemma {:induction false} TakeOutSame<A>(a: seq<A>, b: seq<A>) returns (i: nat)
    requires multiset(a) == multiset(b) && a != []
    ensures i < |b| && b[i] == a[0]
    ensures multiset(RemoveAt(b, i)) == multiset(RemoveAt(a, 0))
  {
    assert a[0] in multiset(a);
    i := IndexIn(a[0], b);
    TakeOut(a, 0);
    TakeOut(b, i);
    Cancel(a[0], multiset(RemoveAt(b, i)), multiset(RemoveAt(a, 0)));
  }

  /** Images of equal multisets are equal multisets. */
  lemma {:induction false} MapMultiset<A, B>(f: A -> B, a: seq<A>, b: seq<A>)
    requires multiset(a) == multiset(b)
    ensures multiset(Map(f, a)) == multiset(Map(f, b))
    decreases |a|
  {
    if a == [] {
      assert |multiset(b)| == 0;
    } else {
      var i := TakeOutSame(a, b);
      MapMultiset(f, RemoveAt(a, 0), RemoveAt(b, i));
      TakeOutMap(f, a, 0);
      TakeOutMap(f, b, i);
    }
  }

  lemma {:induction false} IndexIn<A>(x: A, b: seq<A>) returns (i: nat)
    requires x in multiset(b)
    ensures i < |b| && b[i] == x
  {
    assert x in b;
    i :| 0 <= i < |b| && b[i] == x;
  }

  lemma {:induction false} FilterMultiset<A(!new)>(p: A -> bool, a: seq<A>)
    ensures forall x :: multiset(Filter(p, a))[x] == if p(x) then multiset(a)[x] else 0
  {
    if a != [] {
      assert a == [a[0]] + a[1..];
      FilterMultiset(p, a[1..]);
    }
  }

  lemma {:induction false} FilterMultisetEq<A(!new)>(p: A -> bool, a: seq<A>, b: seq<A>)
    requires multiset(a) == multiset(b)
    ensures multiset(Filter(p, a)) == multiset(Filter(p, b))
  {
    FilterMultiset(p, a);
    FilterMultiset(p, b);
  }

  /** The distinct elements, in order of first occurrence. */
  function Distinct<A(==, !new)>(s: seq<A>): (r: seq<A>)
    ensures forall x :: x in r <==> x in s
    ensures forall i, j :: 0 <= i < j < |r| ==> r[i] != r[j]
  {
    if s == [] then []
    else
      var r := Distinct(s[..|s| - 1]);
      var x := s[|s| - 1];
      if x in r then r else r + [x]
  }

  lemma {:induction false} DistinctSame<A(!new)>(s: seq<A>, x: A)
    requires s != [] && forall y :: y in s ==> y == x
    ensures Distinct(s) == [x]
  {
    var n := |s| - 1;
    assert s[n] in s && forall y :: y in s[..n] ==> y in s;
    if n > 0 {
      DistinctSame(s[..n], x);
    } else {
      assert s[..n] == [];
    }
  }

  predicate NoDup<A(==)>(s: seq<A>) {
    forall i, j :: 0 <= i < j < |s| ==> s[i] != s[j]
  }

  lemma {:induction false} DistinctMap<A(!new), B(!new)>(f: A -> B, s: seq<A>)
    requires forall x, y :: x in s && y in s && f(x) == f(y) ==> x == y
    ensures Distinct(Map(f, s)) == Map(f, Distinct(s))
  {
    if s != [] {
      var n := |s| - 1;
      assert s == s[..n] + [s[n]];
      MapAppend(f, s[..n], [s[n]]);
      assert Map(f, [s[n]]) == [f(s[n])];
      assert Map(f, s)[..n] == Map(f, s[..n]);
      DistinctMap(f, s[..n]);
      var r := Distinct(s[..n]);
      MapAppend(f, r, [s[n]]);
      if f(s[n]) in Map(f, r) {
        var i :| 0 <= i < |r| && Map(f, r)[i] == f(s[n]);
        assert r[i] in s && s[n] in s;
        assert s[n] == r[i];
      }
    }
  }

  lemma {:induction false} NoDupCount<A(!new)>(a: seq<A>, x: A)
    requires NoDup(a)
    ensures multiset(a)[x] == if x in a then 1 else 0
  {
    if a != [] {
      assert a == [a[0]] + a[1..];
      NoDupCount(a[1..], x);
    }
  }

  lemma {:induction false} DistinctOfNoDup<A(!new)>(s: seq<A>)
    requires NoDup(s)
    ensures Distinct(s) == s
  {
    if s != [] {
      var n := |s| - 1;
      assert s == s[..n] + [s[n]];
      DistinctOfNoDup(s[..n]);
      assert s[n] !in s[..n];
    }
  }

  lemma {:induction false} FilterAppend<A(!new)>(p: A -> bool, a: seq<A>, b: seq<A>)
    ensures Filter(p, a + b) == Filter(p, a) + Filter(p, b)
  {
    if a == [] {
      assert a + b == b;
    } else {
      assert (a + b)[1..] == a[1..] + b;
      FilterAppend(p, a[1..], b);
    }
  }

  /** Dropping elements and removing duplicates commute. */
  lemma {:induction false} DistinctFilter<A(!new)>(p: A -> bool, s: seq<A>)
    ensures Distinct(Filter(p, s)) == Filter(p, Distinct(s))
  {
    if s != [] {
      var t, x := s[..|s| - 1], s[|s| - 1];
      assert s == t + [x];
      DistinctFilter(p, t);
      DistinctSnoc(t, x);
      FilterSnoc(p, t, x);
      FilterSnoc(p, Distinct(t), x);
      DistinctSnoc(Filter(p, t), x);
    }
  }

  lemma {:induction false} FilterSnoc<A(!new)>(p: A -> bool, s: seq<A>, x: A)
    ensures Filter(p, s + [x]) == if p(x) then Filter(p, s) + [x] else Filter(p, s)
  {
    FilterAppend(p, s, [x]);
    FilterOne(p, x);
  }

  lemma {:induction false} FilterOne<A(!new)>(p: A -> bool, x: A)
    ensures Filter(p, [x]) == if p(x) then [x] else []
  {
    assert [x][1..] == [];
  }

  lemma {:induction false} DistinctSnoc<A(!new)>(s: seq<A>, x: A)
    ensures Distinct(s + [x]) == if x in Distinct(s) then Distinct(s) else Distinct(s) + [x]
  {
    assert (s + [x])[..|s|] == s;
  }

  // ----- sizes of the parts of a sequence -----

  function Sum(ns: seq<nat>): nat {
    if ns == [] then 0 else ns[0] + Sum(ns[1..])
  }

  function HasImage<A, K(==)>(f: A -> K, k: K): A -> bool {
    (x: A) => f(x) == k
  }

  function PartSize<A(!new), K(==)>(f: A -> K, s: seq<A>): K -> nat {
    (k: K) => |Filter(HasImage(f, k), s)|
  }

  /** The parts of a sequence, one for each image, have its size together. */
  lemma {:induction false} PartSizes<A(!new), K>(f: A -> K, ks: seq<K>, s: seq<A>)
    requires NoDup(ks) && forall x :: x in s ==> f(x) in ks
    ensures Sum(Map(PartSize(f, s), ks)) == |s|
  {
    if s == [] {
      SumZeros(PartSize(f, s), ks);
    } else {
      assert s[0] in s;
      PartSizes(f, ks, s[1..]);
      SumOneMore(f, ks, s);
    }
  }

  lemma {:induction false} SumZeros<K>(n: K -> nat, ks: seq<K>)
    requires forall k :: k in ks ==> n(k) == 0
    ensures Sum(Map(n, ks)) == 0
  {
    if ks != [] {
      assert Map(n, ks)[1..] == Map(n, ks[1..]);
      SumZeros(n, ks[1..]);
    }
  }

  lemma {:induction false} PartOneMore<A(!new), K>(f: A -> K, s: seq<A>, k: K)
    requires s != []
    ensures PartSize(f, s)(k) == PartSize(f, s[1..])(k) + if f(s[0]) == k then 1 else 0
  {
  }

  lemma {:induction false} SumOneMore<A(!new), K>(f: A -> K, ks: seq<K>, s: seq<A>)
    requires s != [] && NoDup(ks)
    ensures Sum(Map(PartSize(f, s), ks)) == Sum(Map(PartSize(f, s[1..]), ks)) + if f(s[0]) in ks then 1 else 0
  {
    if ks != [] {
      assert Map(PartSize(f, s), ks)[1..] == Map(PartSize(f, s), ks[1..]);
      assert Map(PartSize(f, s[1..]), ks)[1..] == Map(PartSize(f, s[1..]), ks[1..]);
      SumOneMore(f, ks[1..], s);
      PartOneMore(f, s, ks[0]);
      assert f(s[0]) in ks <==> f(s[0]) == ks[0] || f(s[0]) in ks[1..];
    }
  }
}
