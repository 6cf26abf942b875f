/** The order that $sort's keys put on documents. */
module SortKeys {
  import opened Bson
  import opened Ordering
  import M = Mongo

  /** Every sort key has a scalar value, an absent field counting as NULL. */
  predicate KeysScalar(keys: seq<M.SortKey>, d: Document) {
    forall i :: 0 <= i < |keys| ==> IsScalar(NullOf(Get(d, keys[i].path)))
  }

  lemma {:induction false} KeysScalarRest(keys: seq<M.SortKey>, d: Document)
    requires keys != [] && KeysScalar(keys, d)
    ensures KeysScalar(keys[1..], d) && IsScalar(NullOf(Get(d, keys[0].path)))
  {
  }

  lemma {:induction false} BeforeAsymmetric(keys: seq<M.SortKey>, a: Document, b: Document)
    requires KeysScalar(keys, a) && KeysScalar(keys, b)
    ensures !(M.Before(keys, a, b) && M.Before(keys, b, a)) && !M.Before(keys, a, a)
    decreases |keys|
  {
    if keys != [] {
      LessTrichotomy(NullOf(Get(a, keys[0].path)), NullOf(Get(b, keys[0].path)));
      LessTrichotomy(NullOf(Get(a, keys[0].path)), NullOf(Get(a, keys[0].path)));
      KeysScalarRest(keys, a);
      KeysScalarRest(keys, b);
      BeforeAsymmetric(keys[1..], a, b);
    }
  }

  lemma {:induction false} BeforeLevels(keys: seq<M.SortKey>, a: Document, b: Document, c: Document)
    requires KeysScalar(keys, a) && KeysScalar(keys, b) && KeysScalar(keys, c)
    requires !M.Before(keys, b, a) && !M.Before(keys, c, b)
    ensures !M.Before(keys, c, a)
    decreases |keys|
  {
    if keys != [] {
      var x, y, z := NullOf(Get(a, keys[0].path)), NullOf(Get(b, keys[0].path)), NullOf(Get(c, keys[0].path));
      LessTrichotomy(x, y);
      LessTrichotomy(y, z);
      LessTrichotomy(x, z);
      if x == y == z {
        KeysScalarRest(keys, a);
        KeysScalarRest(keys, b);
        KeysScalarRest(keys, c);
        BeforeLevels(keys[1..], a, b, c);
      }
      if Less(z, x) && Less(x, y) { LessTransitive(z, x, y); }
      if Less(x, z) && Less(z, y) { LessTransitive(x, z, y); }
    }
  }

  /** On scalar keys, $sort orders documents, and so returns a sorted permutation of them. */
  lemma {:induction false} SortDocsSorts(keys: seq<M.SortKey>, docs: seq<Document>)
    requires forall d :: d in docs ==> KeysScalar(keys, d)
    ensures multiset(M.SortDocs(keys, docs)) == multiset(docs) && Sorted(M.Comes(keys), M.SortDocs(keys, docs))
  {
    forall a, b, c | a in docs && b in docs && c in docs
      ensures !M.Comes(keys)(a, a) && !(M.Comes(keys)(a, b) && M.Comes(keys)(b, a))
      ensures !M.Comes(keys)(b, a) && !M.Comes(keys)(c, b) ==> !M.Comes(keys)(c, a)
    {
      BeforeAsymmetric(keys, a, b);
      if !M.Before(keys, b, a) && !M.Before(keys, c, b) {
        BeforeLevels(keys, a, b, c);
      }
    }
    SortSorts(M.Comes(keys), docs);
  }

  /** The keys see of two documents only the values they name. */
  lemma {:induction false} BeforeSees(keys: seq<M.SortKey>, a: Document, b: Document, c: Document, d: Document)
    requires forall i :: 0 <= i < |keys| ==> NullOf(Get(a, keys[i].path)) == NullOf(Get(c, keys[i].path))
    requires forall i :: 0 <= i < |keys| ==> NullOf(Get(b, keys[i].path)) == NullOf(Get(d, keys[i].path))
    ensures M.Before(keys, a, b) == M.Before(keys, c, d)
    decreases |keys|
  {
    if keys != [] {
      assert forall i :: 0 <= i < |keys| - 1 ==> keys[1..][i] == keys[i + 1];
      BeforeSees(keys[1..], a, b, c, d);
    }
  }

  lemma {:induction false} BeforeOne(key: M.SortKey, a: Document, b: Document)
    ensures var x, y := NullOf(Get(a, key.path)), NullOf(Get(b, key.path));
            M.Before([key], a, b) <==> if key.descending then Less(y, x) else Less(x, y)
  {
    assert [key][1..] == [];
  }

  lemma {:induction false} NoKeysNoSort(docs: seq<Document>)
    ensures M.SortDocs([], docs) == docs
  {
    NeverBefore(M.Comes([]), docs);
  }

  lemma {:induction false} SortTwo(key: M.SortKey, a: Document, b: Document)
    ensures M.SortDocs([key], [a, b]) == if M.Before([key], b, a) then [b, a] else [a, b]
  {
    var c := M.Comes([key]);
    assert [a, b][1..] == [b] && [b][1..] == [];
    assert SortBy(c, [b]) == InsertBy(c, b, []) == [b];
    assert InsertBy(c, a, []) == [a];
  }
}
