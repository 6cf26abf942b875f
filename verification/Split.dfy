/** Splitting a list at its top level, outside parentheses and quotes (mysql/meta.go). */
module Split {
  import opened Wrappers

  // ----- where the scan is -----

  /** The nesting depth, the open quote if any, and whether a backslash came just before. */
  datatype State = State(depth: int, quote: Option<char>, escaped: bool)

  const START := State(0, None, false)

  predicate IsQuote(c: char) {
    c == '\'' || c == '"' || c == '`'
  }

  predicate Special(c: char) {
    IsQuote(c) || c == '(' || c == ')'
  }

  function Step(st: State, c: char): State {
    var escaped := c == '\\';
    match st.quote
    case Some(q) =>
      if c == q && !st.escaped then State(st.depth, None, escaped) else State(st.depth, st.quote, escaped)
    case None =>
      if IsQuote(c) then State(st.depth, Some(c), escaped)
      else if c == '(' then State(st.depth + 1, None, escaped)
      else if c == ')' then State(st.depth - 1, None, escaped)
      else State(st.depth, None, escaped)
  }

  predicate Cuts(st: State, c: char, sep: char) {
    st.quote.None? && !Special(c) && c == sep && st.depth == 0
  }

  /** Outside quotes a backslash means nothing. */
  predicate Alike(a: State, b: State) {
    a.depth == b.depth && a.quote == b.quote && (a.quote.Some? ==> a.escaped == b.escaped)
  }

  predicate TopLevel(st: State) {
    Alike(st, START)
  }

  function Final(st: State, s: string): State
    decreases |s|
  {
    if s == [] then st else Final(Step(st, s[0]), s[1..])
  }

  // ----- splitting and joining -----

  function SplitFrom(st: State, s: string, sep: char): (r: seq<string>)
    ensures r != []
    decreases |s|
  {
    if s == [] then [[]]
    else
      var r := SplitFrom(Step(st, s[0]), s[1..], sep);
      if Cuts(st, s[0], sep) then [[]] + r else [[s[0]] + r[0]] + r[1..]
  }

  function SplitTop(s: string, sep: char): (r: seq<string>)
    ensures r != []
  {
    SplitFrom(START, s, sep)
  }

  function Join(ps: seq<string>, sep: char): string
    requires ps != []
  {
    if |ps| == 1 then ps[0] else ps[0] + [sep] + Join(ps[1..], sep)
  }

  lemma {:induction false} AlikeSplits(a: State, b: State, s: string, sep: char)
    requires Alike(a, b)
    ensures SplitFrom(a, s, sep) == SplitFrom(b, s, sep)
    ensures Alike(Final(a, s), Final(b, s))
    decreases |s|
  {
    if s != [] {
      AlikeSplits(Step(a, s[0]), Step(b, s[0]), s[1..], sep);
    }
  }

  // ----- the loop -----

  function Prefixed(p: string, r: seq<string>): (t: seq<string>)
    requires r != []
    ensures t != []
  {
    [p + r[0]] + r[1..]
  }

  /** `out` is what is cut off so far, with the piece from `start` on still growing at `i`. */
  ghost predicate Progress(s: string, sep: char, out: seq<string>, start: nat, i: nat, st: State) {
    start <= i <= |s| && SplitTop(s, sep) == out + Prefixed(s[start..i], SplitFrom(st, s[i..], sep))
  }

  lemma {:induction false} Turn(s: string, sep: char, out: seq<string>, start: nat, i: nat, st: State)
    requires i < |s| && Progress(s, sep, out, start, i, st)
    ensures if Cuts(st, s[i], sep) then Progress(s, sep, out + [s[start..i]], i + 1, i + 1, Step(st, s[i]))
            else Progress(s, sep, out, start, i + 1, Step(st, s[i]))
  {
    var rest := s[i..];
    var r := SplitFrom(Step(st, s[i]), s[i + 1..], sep);
    assert rest[0] == s[i] && rest[1..] == s[i + 1..];
    if Cuts(st, s[i], sep) {
      assert SplitFrom(st, rest, sep) == [[]] + r;
      assert s[start..i] + [] == s[start..i];
      assert ([[]] + r)[1..] == r;
      assert s[i + 1..i + 1] + r[0] == r[0];
      assert Prefixed(s[i + 1..i + 1], r) == r;
      assert out + ([s[start..i]] + r) == (out + [s[start..i]]) + r;
    } else {
      assert s[start..i] + ([s[i]] + r[0]) == s[start..i + 1] + r[0];
    }
  }

  method SplitTopLevel(s: string, sep: char) returns (out: seq<string>)
    ensures out == SplitTop(s, sep)
  {
    out := [];
    var depth := 0;
    var quote: Option<char> := None;
    var start := 0;
    ghost var st := START;
    First(s, sep);
    for i := 0 to |s|
      invariant st.depth == depth && st.quote == quote
      invariant quote.Some? ==> i > 0 && st.escaped == (s[i - 1] == '\\')
      invariant Progress(s, sep, out, start, i, st)
    {
      Turn(s, sep, out, start, i, st);
      var c := s[i];
      st := Step(st, c);
      if quote.Some? {
        if c == quote.value && (i == 0 || s[i - 1] != '\\') {
          quote := None;
        }
      } else if c == '\'' || c == '"' || c == '`' {
        quote := Some(c);
      } else if c == '(' {
        depth := depth + 1;
      } else if c == ')' {
        depth := depth - 1;
      } else if c == sep && depth == 0 {
        out := out + [s[start..i]];
        start := i + 1;
      }
    }
    Last(s, sep, out, start, st);
    out := out + [s[start..]];
  }

  lemma {:induction false} First(s: string, sep: char)
    ensures Progress(s, sep, [], 0, 0, START)
  {
    var r := SplitFrom(START, s, sep);
    assert s[0..] == s && s[0..0] + r[0] == r[0];
    assert [] + Prefixed([], r) == r;
  }

  lemma {:induction false} Last(s: string, sep: char, out: seq<string>, start: nat, st: State)
    requires Progress(s, sep, out, start, |s|, st)
    ensures SplitTop(s, sep) == out + [s[start..]]
  {
    assert s[|s|..] == [];
    assert s[start..|s|] + [] == s[start..];
  }

  // ----- round trips -----

  lemma {:induction false} JoinPrefixed(p: string, r: seq<string>, sep: char)
    requires r != []
    ensures Join(Prefixed(p, r), sep) == p + Join(r, sep)
  {
    assert Prefixed(p, r)[1..] == r[1..];
    if |r| > 1 {
      assert (p + r[0]) + [sep] + Join(r[1..], sep) == p + (r[0] + [sep] + Join(r[1..], sep));
    }
  }

  /** Joining the pieces gives the string back, from any state and with any separator. */
  lemma {:induction false} JoinOfSplit(st: State, s: string, sep: char)
    ensures Join(SplitFrom(st, s, sep), sep) == s
    decreases |s|
  {
    if s != [] {
      var r := SplitFrom(Step(st, s[0]), s[1..], sep);
      JoinOfSplit(Step(st, s[0]), s[1..], sep);
      assert s == [s[0]] + s[1..];
      if Cuts(st, s[0], sep) {
        assert ([[]] + r)[1..] == r;
        assert Join([[]] + r, sep) == [] + [sep] + Join(r, sep);
      } else {
        JoinPrefixed([s[0]], r, sep);
      }
    }
  }

  /** The scan from `st` never cuts `p`. */
  predicate Whole(st: State, p: string, sep: char) {
    SplitFrom(st, p, sep) == [p]
  }

  /** Pieces are not cut further; every piece but the last ends where a cut can be. */
  ghost predicate Fit(st: State, ps: seq<string>, sep: char)
    requires ps != []
  {
    Whole(st, ps[0], sep)
    && (|ps| > 1 ==> TopLevel(Final(st, ps[0])))
    && (forall i :: 1 <= i < |ps| ==> Whole(START, ps[i], sep))
    && (forall i :: 1 <= i < |ps| - 1 ==> TopLevel(Final(START, ps[i])))
  }

  lemma {:induction false} WholeStep(st: State, p: string, sep: char)
    requires p != []
    ensures Whole(st, p, sep) <==> !Cuts(st, p[0], sep) && Whole(Step(st, p[0]), p[1..], sep)
  {
    var r := SplitFrom(Step(st, p[0]), p[1..], sep);
    assert p == [p[0]] + p[1..];
    assert Whole(Step(st, p[0]), p[1..], sep) ==> r[1..] == [];
    if Cuts(st, p[0], sep) {
      assert |[[]] + r| >= 2;
    } else if Whole(st, p, sep) {
      assert SplitFrom(st, p, sep)[0] == [p[0]] + r[0];
      assert ([p[0]] + r[0])[1..] == r[0];
      assert |SplitFrom(st, p, sep)| == |r|;
    }
  }

  /** The pieces of a split fit, from any state. */
  lemma {:induction false} SplitFits(st: State, s: string, sep: char)
    ensures Fit(st, SplitFrom(st, s, sep), sep)
    decreases |s|
  {
    if s != [] {
      var r := SplitFrom(Step(st, s[0]), s[1..], sep);
      SplitFits(Step(st, s[0]), s[1..], sep);
      if Cuts(st, s[0], sep) {
        CutFits(st, s[0], r, sep);
        assert SplitFrom(st, s, sep) == [[]] + r;
      } else {
        var p := [s[0]] + r[0];
        assert p[0] == s[0] && p[1..] == r[0];
        WholeStep(st, p, sep);
        assert Final(st, p) == Final(Step(st, s[0]), r[0]);
        assert forall i :: 1 <= i < |r| ==> SplitFrom(st, s, sep)[i] == r[i];
      }
    }
  }

  lemma {:induction false} CutFits(st: State, c: char, r: seq<string>, sep: char)
    requires r != [] && Cuts(st, c, sep) && Fit(Step(st, c), r, sep)
    ensures Fit(st, [[]] + r, sep)
  {
    AlikeSplits(Step(st, c), START, r[0], sep);
    var ps := [[]] + r;
    assert forall i :: 1 <= i < |ps| ==> ps[i] == r[i - 1];
  }

  /** Each piece splits into itself alone. */
  lemma {:induction false} PiecesSplitAlone(s: string, sep: char, i: nat)
    requires i < |SplitTop(s, sep)|
    ensures SplitTop(SplitTop(s, sep)[i], sep) == [SplitTop(s, sep)[i]]
  {
    SplitFits(START, s, sep);
  }

  lemma {:induction false} SplitAppend(st: State, p: string, s: string, sep: char)
    requires Whole(st, p, sep)
    ensures SplitFrom(st, p + s, sep) == Prefixed(p, SplitFrom(Final(st, p), s, sep))
    decreases |p|
  {
    if p == [] {
      assert p + s == s;
      assert [] + SplitFrom(st, s, sep)[0] == SplitFrom(st, s, sep)[0];
      assert SplitFrom(st, s, sep) == Prefixed(p, SplitFrom(st, s, sep));
    } else {
      WholeStep(st, p, sep);
      SplitAppend(Step(st, p[0]), p[1..], s, sep);
      assert (p + s)[0] == p[0] && (p + s)[1..] == p[1..] + s;
      var r := SplitFrom(Final(st, p), s, sep);
      assert [p[0]] + (p[1..] + r[0]) == p + r[0];
    }
  }

  /** Splitting the join of pieces that fit gives them back. */
  lemma {:induction false} SplitOfJoin(st: State, ps: seq<string>, sep: char)
    requires ps != [] && !Special(sep) && Fit(st, ps, sep)
    ensures SplitFrom(st, Join(ps, sep), sep) == ps
    decreases |ps|
  {
    if |ps| > 1 {
      var rest := ps[1..];
      var t := [sep] + Join(rest, sep);
      var mid := Final(st, ps[0]);
      assert ps[0] + [sep] + Join(rest, sep) == ps[0] + t;
      SplitAppend(st, ps[0], t, sep);
      assert t[0] == sep && t[1..] == Join(rest, sep);
      AlikeSplits(Step(mid, sep), START, Join(rest, sep), sep);
      assert forall i :: 0 <= i < |rest| ==> rest[i] == ps[i + 1];
      SplitOfJoin(START, rest, sep);
      assert SplitFrom(mid, t, sep) == [[]] + rest;
      assert ps[0] + [] == ps[0];
      assert ([[]] + rest)[1..] == rest;
    } else {
      assert ps == [ps[0]];
    }
  }

  /** A list survives joining and splitting exactly when its pieces fit. */
  lemma {:induction false} SurvivesExactly(ps: seq<string>, sep: char)
    requires ps != [] && !Special(sep)
    ensures SplitTop(Join(ps, sep), sep) == ps <==> Fit(START, ps, sep)
  {
    if Fit(START, ps, sep) {
      SplitOfJoin(START, ps, sep);
    } else {
      SplitFits(START, Join(ps, sep), sep);
    }
  }

  // ----- what is never cut, in so many words -----

  /** Well-formed text: a character of no meaning, a quotation, or text in parentheses. */
  datatype Text = Plain(c: char) | Quotation(quote: char, body: string) | Parens(inside: Texts)
  datatype Texts = TNil | TCons(head: Text, tail: Texts)

  /** The quote is in the body only after a backslash, and the body does not end in one. */
  predicate QuotableBody(body: string, quote: char) {
    (forall i :: 0 <= i < |body| && body[i] == quote ==> i > 0 && body[i - 1] == '\\')
    && (body != [] ==> body[|body| - 1] != '\\')
  }

  predicate IsText(t: Text) {
    match t
    case Plain(c) => !Special(c)
    case Quotation(q, body) => q in {'\'', '"', '`'} && QuotableBody(body, q)
    case Parens(ts) => AreTexts(ts)
  }

  predicate AreTexts(ts: Texts) {
    ts.TCons? ==> IsText(ts.head) && AreTexts(ts.tail)
  }

  function Written(t: Text): string {
    match t
    case Plain(c) => [c]
    case Quotation(q, body) => [q] + body + [q]
    case Parens(ts) => "(" + WrittenAll(ts) + ")"
  }

  function WrittenAll(ts: Texts): string {
    if ts.TNil? then [] else Written(ts.head) + WrittenAll(ts.tail)
  }

  /** No separator but in quotations and parentheses. */
  predicate NoSeparator(ts: Texts, sep: char) {
    ts.TCons? ==> ts.head != Plain(sep) && NoSeparator(ts.tail, sep)
  }

  /** From `st` the text is not cut, and leaves the depth as it was, outside quotes. */
  predicate Crosses(st: State, p: string, sep: char) {
    Whole(st, p, sep) && Final(st, p).depth == st.depth && Final(st, p).quote == None
  }

  lemma {:induction false} FinalAppend(st: State, a: string, b: string)
    ensures Final(st, a + b) == Final(Final(st, a), b)
    decreases |a|
  {
    if a == [] {
      assert a + b == b;
    } else {
      assert (a + b)[0] == a[0] && (a + b)[1..] == a[1..] + b;
      FinalAppend(Step(st, a[0]), a[1..], b);
    }
  }

  lemma {:induction false} WholeAppend(st: State, a: string, b: string, sep: char)
    requires Whole(st, a, sep) && Whole(Final(st, a), b, sep)
    ensures Whole(st, a + b, sep)
  {
    SplitAppend(st, a, b, sep);
  }

  lemma {:induction false} CharWhole(st: State, c: char, sep: char)
    requires !Cuts(st, c, sep)
    ensures Whole(st, [c], sep) && Final(st, [c]) == Step(st, c)
  {
    assert [c][1..] == [];
    WholeStep(st, [c], sep);
  }

  /** Inside a quotation nothing is cut, and only its own quote ends it. */
  lemma {:induction false} BodyWhole(st: State, body: string, i: nat, quote: char, sep: char)
    requires i <= |body| && st.quote == Some(quote) && QuotableBody(body, quote) && IsQuote(quote)
    requires st.escaped == (i > 0 && body[i - 1] == '\\')
    ensures Whole(st, body[i..], sep)
    ensures var end := Final(st, body[i..]); end.depth == st.depth && end.quote == Some(quote) && !end.escaped
    decreases |body| - i
  {
    if i < |body| {
      assert body[i..][0] == body[i] && body[i..][1..] == body[i + 1..];
      WholeStep(st, body[i..], sep);
      BodyWhole(Step(st, body[i]), body, i + 1, quote, sep);
    } else {
      assert body[i..] == [];
    }
  }

  lemma {:induction false} QuotationCrosses(st: State, quote: char, body: string, sep: char)
    requires st.quote == None && quote in {'\'', '"', '`'} && QuotableBody(body, quote)
    ensures Crosses(st, [quote] + body + [quote], sep)
  {
    var open := Step(st, quote);
    CharWhole(st, quote, sep);
    assert body[0..] == body;
    BodyWhole(open, body, 0, quote, sep);
    var end := Final(open, body);
    CharWhole(end, quote, sep);
    WholeAppend(st, [quote], body, sep);
    FinalAppend(st, [quote], body);
    WholeAppend(st, [quote] + body, [quote], sep);
    FinalAppend(st, [quote] + body, [quote]);
  }

  lemma {:induction false} TextCrosses(t: Text, st: State, sep: char)
    requires IsText(t) && st.quote == None && st.depth >= 0 && (st.depth == 0 ==> t != Plain(sep)) && !Special(sep)
    ensures Crosses(st, Written(t), sep)
    decreases t
  {
    match t
    case Plain(c) => CharWhole(st, c, sep);
    case Quotation(q, body) => QuotationCrosses(st, q, body, sep);
    case Parens(ts) =>
      var open := Step(st, '(');
      CharWhole(st, '(', sep);
      TextsCross(ts, open, sep);
      CharWhole(Final(open, WrittenAll(ts)), ')', sep);
      WholeAppend(st, "(", WrittenAll(ts), sep);
      FinalAppend(st, "(", WrittenAll(ts));
      WholeAppend(st, "(" + WrittenAll(ts), ")", sep);
      FinalAppend(st, "(" + WrittenAll(ts), ")");
  }

  lemma {:induction false} TextsCross(ts: Texts, st: State, sep: char)
    requires AreTexts(ts) && st.quote == None && st.depth >= 0 && (st.depth == 0 ==> NoSeparator(ts, sep)) && !Special(sep)
    ensures Crosses(st, WrittenAll(ts), sep)
    decreases ts
  {
    if ts.TCons? {
      TextCrosses(ts.head, st, sep);
      TextsCross(ts.tail, Final(st, Written(ts.head)), sep);
      WholeAppend(st, Written(ts.head), WrittenAll(ts.tail), sep);
      FinalAppend(st, Written(ts.head), WrittenAll(ts.tail));
    }
  }

  /** Text whose separators are all in parentheses or quotations is one piece, and the separator after it cuts. */
  lemma {:induction false} TextIsPiece(ts: Texts, sep: char, rest: string)
    requires AreTexts(ts) && NoSeparator(ts, sep) && !Special(sep)
    ensures SplitTop(WrittenAll(ts), sep) == [WrittenAll(ts)]
    ensures SplitTop(WrittenAll(ts) + [sep] + rest, sep) == [WrittenAll(ts)] + SplitTop(rest, sep)
  {
    var p, t := WrittenAll(ts), [sep] + rest;
    TextsCross(ts, START, sep);
    assert p + [sep] + rest == p + t;
    SplitAppend(START, p, t, sep);
    var mid := Final(START, p);
    assert t[0] == sep && t[1..] == rest;
    AlikeSplits(Step(mid, sep), START, rest, sep);
    assert SplitFrom(mid, t, sep) == [[]] + SplitTop(rest, sep);
    assert p + [] == p && ([[]] + SplitTop(rest, sep))[1..] == SplitTop(rest, sep);
  }
}
