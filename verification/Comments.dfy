/** Comment stripping before statements are dispatched (mysql/handler.go). */
module Comments {
  import opened Wrappers

  // ----- tokens -----

  /** A line comment ends before its newline; a block comment or a quote may lack its end. */
  datatype Token =
    | Char(c: char)
    | Quoted(text: string)
    | Block(text: string, closed: bool)
    | Line(text: string)

  predicate IsQuote(c: char) {
    c == '\'' || c == '"' || c == '`'
  }

  predicate OpensBlock(s: string, i: nat) {
    i + 1 < |s| && s[i] == '/' && s[i + 1] == '*'
  }

  predicate OpensLine(s: string, i: nat) {
    i < |s| && (s[i] == '#' || (s[i] == '-' && i + 1 < |s| && s[i + 1] == '-'))
  }

  predicate OpensComment(s: string, i: nat) {
    OpensBlock(s, i) || OpensLine(s, i)
  }

  /** Where the first comment end from `i` on is over. */
  function BlockEnd(s: string, i: nat): (k: Option<nat>)
    ensures k.Some? ==> i + 2 <= k.value <= |s|
    decreases |s| - i
  {
    if i + 1 >= |s| then None
    else if s[i] == '*' && s[i + 1] == '/' then Some(i + 2)
    else BlockEnd(s, i + 1)
  }

  function NewlineAt(s: string, i: nat): (k: Option<nat>)
    ensures k.Some? ==> i <= k.value < |s| && s[k.value] == '\n'
    decreases |s| - i
  {
    if i >= |s| then None else if s[i] == '\n' then Some(i) else NewlineAt(s, i + 1)
  }

  /** Where a quote open at `i` is over; a backslash hides the next character. */
  function QuoteEnd(s: string, i: nat, quote: char): (k: nat)
    requires i <= |s|
    ensures i <= k <= |s|
    decreases |s| - i
  {
    if i == |s| then i
    else if s[i] == '\\' && i + 1 < |s| then QuoteEnd(s, i + 2, quote)
    else if s[i] == quote then i + 1
    else QuoteEnd(s, i + 1, quote)
  }

  function OrEnd(k: Option<nat>, s: string): nat {
    if k.Some? then k.value else |s|
  }

  function TokenEnd(s: string, i: nat): (end: nat)
    requires i < |s|
    ensures i < end <= |s|
  {
    if OpensBlock(s, i) then OrEnd(BlockEnd(s, i + 2), s)
    else if OpensLine(s, i) then OrEnd(NewlineAt(s, i), s)
    else if IsQuote(s[i]) then QuoteEnd(s, i + 1, s[i])
    else i + 1
  }

  function TokenAt(s: string, i: nat): Token
    requires i < |s|
  {
    var text := s[i..TokenEnd(s, i)];
    if OpensBlock(s, i) then Block(text, BlockEnd(s, i + 2).Some?)
    else if OpensLine(s, i) then Line(text)
    else if IsQuote(s[i]) then Quoted(text)
    else Char(s[i])
  }

  function LexFrom(s: string, i: nat): seq<Token>
    requires i <= |s|
    decreases |s| - i
  {
    if i == |s| then [] else [TokenAt(s, i)] + LexFrom(s, TokenEnd(s, i))
  }

  function Lex(s: string): seq<Token> {
    LexFrom(s, 0)
  }

  function TextOf(t: Token): string {
    match t
    case Char(c) => [c]
    case Quoted(x) => x
    case Block(x, _) => x
    case Line(x) => x
  }

  function Texts(ts: seq<Token>): string {
    if ts == [] then [] else TextOf(ts[0]) + Texts(ts[1..])
  }

  lemma {:induction false} LexStep(s: string, i: nat, t: Token, end: nat, rest: seq<Token>)
    requires i < |s| && TokenAt(s, i) == t && TokenEnd(s, i) == end && LexFrom(s, end) == rest
    ensures LexFrom(s, i) == [t] + rest
  {
  }

  lemma {:induction false} TokenText(s: string, i: nat)
    requires i < |s|
    ensures TextOf(TokenAt(s, i)) == s[i..TokenEnd(s, i)]
  {
  }

  lemma {:induction false} TextsCons(t: Token, rest: seq<Token>)
    ensures Texts([t] + rest) == TextOf(t) + Texts(rest)
  {
    assert ([t] + rest)[1..] == rest;
  }

  /** Lexing loses nothing. */
  lemma {:induction false} LexKeepsAll(s: string, i: nat)
    requires i <= |s|
    ensures Texts(LexFrom(s, i)) == s[i..]
    decreases |s| - i
  {
    if i < |s| {
      var t, e := TokenAt(s, i), TokenEnd(s, i);
      LexKeepsAll(s, e);
      TokenText(s, i);
      LexStep(s, i, t, e, LexFrom(s, e));
      TextsCons(t, LexFrom(s, e));
      assert s[i..e] + s[e..] == s[i..];
    }
  }

  // ----- stripping -----

  /** A closed block comment leaves a space, any other comment nothing. */
  function Blank(t: Token): seq<Token> {
    match t
    case Block(_, closed) => if closed then [Char(' ')] else []
    case Line(_) => []
    case _ => [t]
  }

  function BlankAll(ts: seq<Token>): seq<Token> {
    if ts == [] then [] else Blank(ts[0]) + BlankAll(ts[1..])
  }

  function StripFrom(s: string, i: nat): string
    requires i <= |s|
  {
    Texts(BlankAll(LexFrom(s, i)))
  }

  function Strip(s: string): string {
    StripFrom(s, 0)
  }

  lemma {:induction false} BlankStep(t: Token, rest: seq<Token>)
    ensures BlankAll([t] + rest) == Blank(t) + BlankAll(rest)
  {
    assert ([t] + rest)[1..] == rest;
  }

  lemma {:induction false} TextsStep(a: seq<Token>, b: seq<Token>)
    requires |a| <= 1
    ensures Texts(a + b) == Texts(a) + Texts(b)
  {
    if a == [] {
      assert a + b == b;
    } else {
      assert (a + b)[1..] == b && a[1..] == [];
    }
  }

  /** Stripping, one token at a time. */
  lemma {:induction false} StripStep(s: string, i: nat)
    requires i < |s|
    ensures StripFrom(s, i) == Texts(Blank(TokenAt(s, i))) + StripFrom(s, TokenEnd(s, i))
  {
    BlankStep(TokenAt(s, i), LexFrom(s, TokenEnd(s, i)));
    TextsStep(Blank(TokenAt(s, i)), BlankAll(LexFrom(s, TokenEnd(s, i))));
  }

  lemma {:induction false} TextsOne(t: Token)
    ensures Texts([t]) == TextOf(t)
  {
    assert [t][1..] == [];
    assert TextOf(t) + [] == TextOf(t);
  }

  /** What a token leaves. */
  function Left(s: string, i: nat): string
    requires i < |s|
  {
    if OpensBlock(s, i) then (if BlockEnd(s, i + 2).Some? then [' '] else [])
    else if OpensLine(s, i) then []
    else if IsQuote(s[i]) then s[i..TokenEnd(s, i)]
    else [s[i]]
  }

  lemma {:induction false} StripLeft(s: string, i: nat)
    requires i < |s|
    ensures StripFrom(s, i) == Left(s, i) + StripFrom(s, TokenEnd(s, i))
  {
    StripStep(s, i);
    if Blank(TokenAt(s, i)) != [] {
      TextsOne(Blank(TokenAt(s, i))[0]);
    }
  }

  /** `b` is what is written so far, with the input from `i` on still to be stripped. */
  predicate Progress(s: string, b: string, i: nat) {
    i <= |s| && Strip(s) == b + StripFrom(s, i)
  }

  lemma {:induction false} Turn(s: string, b: string, i: nat)
    requires i < |s| && Progress(s, b, i)
    ensures Progress(s, b + Left(s, i), TokenEnd(s, i))
  {
    StripLeft(s, i);
    Regrouped(Strip(s), b, StripFrom(s, i), Left(s, i), StripFrom(s, TokenEnd(s, i)));
  }

  lemma {:induction false} Regrouped(whole: string, b: string, x: string, left: string, rest: string)
    requires whole == b + x && x == left + rest
    ensures whole == b + left + rest
  {
  }

  lemma {:induction false} Finished(s: string, b: string)
    requires Progress(s, b, |s|)
    ensures b == Strip(s)
  {
    assert StripFrom(s, |s|) == [];
  }

  /** The loop of stripSQLComments. */
  method StripSQLComments(s: string) returns (b: string)
    ensures b == Strip(s)
  {
    b := "";
    var i := 0;
    while i < |s|
      invariant i <= |s| && Progress(s, b, i)
    {
      Turn(s, b, i);
      if i + 1 < |s| && s[i] == '/' && s[i + 1] == '*' {
        var end := BlockEnd(s, i + 2);
        if end.None? {
          Finished(s, b + []);
          return b;
        }
        i := end.value;
        b := b + [' '];
      } else if (i + 1 < |s| && s[i] == '-' && s[i + 1] == '-') || s[i] == '#' {
        var nl := NewlineAt(s, i);
        if nl.None? {
          Finished(s, b + []);
          return b;
        }
        i := nl.value;
        assert b + [] == b;
      } else if s[i] == '\'' || s[i] == '"' || s[i] == '`' {
        b, i := CopyQuote(s, i, b);
      } else {
        b := b + [s[i]];
        i := i + 1;
      }
    }
    Finished(s, b);
  }

  /** The inner loop, which copies a quoted segment. */
  method CopyQuote(s: string, start: nat, prefix: string) returns (b: string, i: nat)
    requires start < |s|
    ensures i == QuoteEnd(s, start + 1, s[start]) && b == prefix + s[start..i]
  {
    var quote := s[start];
    b := prefix + [s[start]];
    i := start + 1;
    while i < |s|
      invariant start < i <= |s|
      invariant b == prefix + s[start..i]
      invariant QuoteEnd(s, i, quote) == QuoteEnd(s, start + 1, quote)
    {
      if s[i] == '\\' && i + 1 < |s| {
        b := b + [s[i]];
        b := b + [s[i + 1]];
        i := i + 2;
        continue;
      }
      b := b + [s[i]];
      if s[i] == quote {
        i := i + 1;
        break;
      }
      i := i + 1;
    }
  }

  // ----- lexing what is left -----

  lemma {:induction false} BlockEndShift(p: string, s: string, i: nat)
    ensures BlockEnd(p + s, |p| + i) == if BlockEnd(s, i).Some? then Some(|p| + BlockEnd(s, i).value) else None
    decreases |s| - i
  {
    if i + 1 < |s| {
      assert (p + s)[|p| + i] == s[i] && (p + s)[|p| + i + 1] == s[i + 1];
      BlockEndShift(p, s, i + 1);
    }
  }

  lemma {:induction false} NewlineShift(p: string, s: string, i: nat)
    ensures NewlineAt(p + s, |p| + i) == if NewlineAt(s, i).Some? then Some(|p| + NewlineAt(s, i).value) else None
    decreases |s| - i
  {
    if i < |s| {
      assert (p + s)[|p| + i] == s[i];
      NewlineShift(p, s, i + 1);
    }
  }

  lemma {:induction false} QuoteShift(p: string, s: string, i: nat, quote: char)
    requires i <= |s|
    ensures QuoteEnd(p + s, |p| + i, quote) == |p| + QuoteEnd(s, i, quote)
    decreases |s| - i
  {
    if i < |s| {
      assert (p + s)[|p| + i] == s[i];
      QuoteShift(p, s, i + 1, quote);
      if i + 1 < |s| {
        QuoteShift(p, s, i + 2, quote);
      }
    }
  }

  lemma {:induction false} EndShift(p: string, s: string, i: nat)
    requires i < |s|
    ensures TokenEnd(p + s, |p| + i) == |p| + TokenEnd(s, i)
  {
    assert (p + s)[|p| + i] == s[i];
    assert i + 1 < |s| ==> (p + s)[|p| + i + 1] == s[i + 1];
    BlockEndShift(p, s, i + 2);
    NewlineShift(p, s, i);
    QuoteShift(p, s, i + 1, s[i]);
  }

  lemma {:induction false} TokenShift(p: string, s: string, i: nat)
    requires i < |s|
    ensures TokenEnd(p + s, |p| + i) == |p| + TokenEnd(s, i)
    ensures TokenAt(p + s, |p| + i) == TokenAt(s, i)
  {
    EndShift(p, s, i);
    BlockEndShift(p, s, i + 2);
    assert (p + s)[|p| + i] == s[i];
    assert i + 1 < |s| ==> (p + s)[|p| + i + 1] == s[i + 1];
    assert (p + s)[|p| + i..|p| + TokenEnd(s, i)] == s[i..TokenEnd(s, i)];
  }

  /** The lexer looks only ahead. */
  lemma {:induction false} LexShift(p: string, s: string, i: nat)
    requires i <= |s|
    ensures LexFrom(p + s, |p| + i) == LexFrom(s, i)
    decreases |s| - i
  {
    if i < |s| {
      var t, e := TokenAt(s, i), TokenEnd(s, i);
      TokenShift(p, s, i);
      LexShift(p, s, e);
      LexStep(s, i, t, e, LexFrom(s, e));
      LexStep(p + s, |p| + i, t, |p| + e, LexFrom(s, e));
    }
  }

  /** A quote copied out ends where it ended, whatever follows if it was over. */
  lemma {:induction false} QuoteCopied(s: string, a: nat, i: nat, y: string, quote: char)
    requires a <= i <= |s| && (QuoteEnd(s, i, quote) < |s| || y == [])
    ensures QuoteEnd(s[a..QuoteEnd(s, i, quote)] + y, i - a, quote) == QuoteEnd(s, i, quote) - a
    decreases |s| - i
  {
    var t := s[a..QuoteEnd(s, i, quote)] + y;
    if i < |s| {
      assert t[i - a] == s[i];
      if s[i] == '\\' && i + 1 < |s| {
        QuoteCopied(s, a, i + 2, y, quote);
      } else if s[i] != quote {
        QuoteCopied(s, a, i + 1, y, quote);
      }
    }
  }

  /** What is left begins as the input does, or with a space or a newline. */
  lemma {:induction false} FirstLeft(s: string, i: nat)
    requires i < |s| && StripFrom(s, i) != []
    ensures StripFrom(s, i)[0] in {s[i], ' ', '\n'}
    decreases |s| - i
  {
    StripLeft(s, i);
    var end := TokenEnd(s, i);
    if OpensComment(s, i) && Left(s, i) == [] && end < |s| {
      FirstLeft(s, end);
    }
  }

  lemma {:induction false} CharLexed(c: char, y: string)
    requires !IsQuote(c) && !OpensComment([c] + y, 0)
    ensures Lex([c] + y) == [Char(c)] + Lex(y)
  {
    LexShift([c], y, 0);
    assert ([c] + y)[0] == c;
  }

  /** A character left over opens no comment with what is left after it. */
  lemma {:induction false} CharStays(s: string, i: nat)
    requires i < |s| && !OpensComment(s, i)
    ensures !OpensComment([s[i]] + StripFrom(s, i + 1), 0)
  {
    var y := StripFrom(s, i + 1);
    if y != [] {
      assert i + 1 < |s|;
      FirstLeft(s, i + 1);
      assert ([s[i]] + y)[1] == y[0];
    }
  }

  lemma {:induction false} QuoteLexed(s: string, i: nat, y: string)
    requires i < |s| && !OpensComment(s, i) && IsQuote(s[i]) && (TokenEnd(s, i) < |s| || y == [])
    ensures Lex(s[i..TokenEnd(s, i)] + y) == [TokenAt(s, i)] + Lex(y)
  {
    var q := s[i..TokenEnd(s, i)];
    var t := q + y;
    QuoteCopied(s, i, i + 1, y, s[i]);
    assert t[0] == s[i];
    assert TokenEnd(t, 0) == |q| && t[0..|q|] == q;
    LexShift(q, y, 0);
  }

  lemma {:induction false} NothingLeft(s: string)
    ensures StripFrom(s, |s|) == [] && Lex([]) == [] && LexFrom(s, |s|) == []
  {
  }

  /** Stripping takes the comments away and does nothing else: the other tokens stay, in order. */
  lemma {:induction false} LexOfStripped(s: string, i: nat)
    requires i <= |s|
    ensures Lex(StripFrom(s, i)) == BlankAll(LexFrom(s, i))
    decreases |s| - i
  {
    if i == |s| {
      NothingLeft(s);
    } else {
      var end := TokenEnd(s, i);
      var y := StripFrom(s, end);
      LexOfStripped(s, end);
      StripLeft(s, i);
      BlankStep(TokenAt(s, i), LexFrom(s, end));
      if OpensBlock(s, i) {
        if Left(s, i) != [] { CharLexed(' ', y); }
      } else if OpensLine(s, i) {
        assert Left(s, i) + y == y;
      } else if IsQuote(s[i]) {
        if end == |s| { NothingLeft(s); }
        QuoteLexed(s, i, y);
      } else {
        CharStays(s, i);
        CharLexed(s[i], y);
      }
    }
  }

  // ----- what follows -----

  predicate IsComment(t: Token) {
    t.Block? || t.Line?
  }

  predicate CommentFree(s: string) {
    forall t :: t in Lex(s) ==> !IsComment(t)
  }

  lemma {:induction false} BlankAllClean(ts: seq<Token>)
    ensures forall t :: t in BlankAll(ts) ==> !IsComment(t)
  {
    if ts != [] {
      BlankAllClean(ts[1..]);
    }
  }

  lemma {:induction false} CleanBlanks(ts: seq<Token>)
    requires forall t :: t in ts ==> !IsComment(t)
    ensures BlankAll(ts) == ts
  {
    if ts != [] {
      assert ts[0] in ts;
      CleanBlanks(ts[1..]);
      assert ts == [ts[0]] + ts[1..];
    }
  }

  /** The output has no comment outside quotes. */
  lemma {:induction false} StrippedIsClean(s: string)
    ensures CommentFree(Strip(s))
  {
    LexOfStripped(s, 0);
    BlankAllClean(Lex(s));
  }

  /** Exactly the inputs without comments are left as they are. */
  lemma {:induction false} UnchangedExactly(s: string)
    ensures Strip(s) == s <==> CommentFree(s)
  {
    if CommentFree(s) {
      CleanBlanks(Lex(s));
      LexKeepsAll(s, 0);
      assert s[0..] == s;
    } else {
      StrippedIsClean(s);
    }
  }

  /** Stripping twice is stripping once. */
  lemma {:induction false} StripIdempotent(s: string)
    ensures Strip(Strip(s)) == Strip(s)
  {
    StrippedIsClean(s);
    UnchangedExactly(Strip(s));
  }

  function Quotes(ts: seq<Token>): seq<string> {
    if ts == [] then []
    else if ts[0].Quoted? then [ts[0].text] + Quotes(ts[1..])
    else Quotes(ts[1..])
  }

  lemma {:induction false} BlankQuotes(ts: seq<Token>)
    ensures Quotes(BlankAll(ts)) == Quotes(ts)
  {
    if ts != [] {
      BlankQuotes(ts[1..]);
      var b, rest := Blank(ts[0]), BlankAll(ts[1..]);
      if b == [] {
        assert b + rest == rest;
      } else {
        assert (b + rest)[1..] == rest;
      }
    }
  }

  /** Quoted segments outside comments survive, word for word and in order. */
  lemma {:induction false} QuotesSurvive(s: string)
    ensures Quotes(Lex(Strip(s))) == Quotes(Lex(s))
  {
    LexOfStripped(s, 0);
    BlankQuotes(Lex(s));
  }

  // ----- what stripping does to text, in so many words -----

  lemma {:induction false} StripRest(a: string, r: string)
    ensures StripFrom(a + r, |a|) == Strip(r)
  {
    LexShift(a, r, 0);
  }

  /** A first token that is `a` leaves what it leaves, and the rest is stripped by itself. */
  lemma {:induction false} StripFirst(a: string, r: string)
    requires a != [] && TokenEnd(a + r, 0) == |a|
    ensures Strip(a + r) == Left(a + r, 0) + Strip(r)
  {
    StripLeft(a + r, 0);
    StripRest(a, r);
  }

  predicate IsOrdinary(c: char) {
    c !in {'\'', '"', '`', '/', '-', '#'}
  }

  predicate AllOrdinary(p: string) {
    forall c :: c in p ==> IsOrdinary(c)
  }

  lemma {:induction false} OrdinaryCharStays(c: char, r: string)
    requires IsOrdinary(c)
    ensures Strip([c] + r) == [c] + Strip(r)
  {
    assert ([c] + r)[0] == c;
    StripFirst([c], r);
  }

  /** Text without quotes, slashes, dashes and hashes stays as it is. */
  lemma {:induction false} OrdinaryStays(p: string, r: string)
    requires AllOrdinary(p)
    ensures Strip(p + r) == p + Strip(r)
  {
    if p == [] {
      assert p + r == r;
    } else {
      assert p[0] in p;
      OrdinaryCharStays(p[0], p[1..] + r);
      OrdinaryStays(p[1..], r);
      Regroup(p, r);
      Regroup(p, Strip(r));
    }
  }

  lemma {:induction false} Regroup(p: string, r: string)
    requires p != []
    ensures [p[0]] + (p[1..] + r) == p + r
  {
  }

  /** So does a slash or a dash that opens no comment. */
  lemma {:induction false} LoneMarkStays(c: char, r: string)
    requires (c == '/' && (r == [] || r[0] != '*')) || (c == '-' && (r == [] || r[0] != '-'))
    ensures Strip([c] + r) == [c] + Strip(r)
  {
    var t := [c] + r;
    assert t[0] == c && (r != [] ==> t[1] == r[0]);
    StripFirst([c], r);
  }

  lemma {:induction false} NewlineFound(s: string, i: nat, k: nat)
    requires i <= k <= |s| && (k < |s| ==> s[k] == '\n') && forall j :: i <= j < k ==> s[j] != '\n'
    ensures NewlineAt(s, i) == if k < |s| then Some(k) else None
    decreases k - i
  {
    if i < k {
      NewlineFound(s, i + 1, k);
    }
  }

  predicate OpensLineWith(m: string) {
    m == "--" || m == "#"
  }

  lemma {:induction false} LineFirst(m: string, c: string, r: string)
    requires OpensLineWith(m) && '\n' !in c
    ensures Strip(m + c + ("\n" + r)) == Strip("\n" + r)
  {
    var a, t := m + c, m + c + ("\n" + r);
    assert t[0] == m[0] && (m == "--" ==> t[1] == '-');
    assert forall j :: 0 <= j < |a| ==> t[j] == a[j];
    assert forall j :: |m| <= j < |a| ==> a[j] in c;
    assert t[|a|] == '\n';
    NewlineFound(t, 0, |a|);
    StripFirst(a, "\n" + r);
  }

  /** A line comment is dropped up to its newline. */
  lemma {:induction false} LineDropped(p: string, m: string, c: string, r: string)
    requires AllOrdinary(p) && OpensLineWith(m) && '\n' !in c
    ensures Strip(p + (m + c + ("\n" + r))) == p + Strip("\n" + r)
  {
    OrdinaryStays(p, m + c + ("\n" + r));
    LineFirst(m, c, r);
  }

  /** Without a newline, to the end. */
  lemma {:induction false} LastLineDropped(p: string, m: string, c: string)
    requires AllOrdinary(p) && OpensLineWith(m) && '\n' !in c
    ensures Strip(p + (m + c)) == p
  {
    var t := m + c;
    OrdinaryStays(p, t);
    assert t[0] == m[0] && (m == "--" ==> t[1] == '-');
    assert forall j :: |m| <= j < |t| ==> t[j] in c;
    NewlineFound(t, 0, |t|);
    StripFirst(t, []);
    assert t + [] == t;
    NothingLeft([]);
  }

  /** The text holds no end of a block comment. */
  predicate NoBlockEnd(c: string) {
    forall j :: 0 <= j < |c| - 1 ==> !(c[j] == '*' && c[j + 1] == '/')
  }

  lemma {:induction false} BlockEndFound(s: string, i: nat, k: nat)
    requires i <= k && k + 1 < |s| && s[k] == '*' && s[k + 1] == '/'
    requires forall j :: i <= j < k ==> !(s[j] == '*' && s[j + 1] == '/')
    ensures BlockEnd(s, i) == Some(k + 2)
    decreases k - i
  {
    if i < k {
      BlockEndFound(s, i + 1, k);
    }
  }

  lemma {:induction false} NoBlockEndFound(s: string, i: nat)
    requires forall j :: i <= j < |s| - 1 ==> !(s[j] == '*' && s[j + 1] == '/')
    ensures BlockEnd(s, i) == None
    decreases |s| - i
  {
    if i + 1 < |s| {
      NoBlockEndFound(s, i + 1);
    }
  }

  lemma {:induction false} BlockFirst(c: string, r: string)
    requires NoBlockEnd(c)
    ensures Strip("/*" + c + "*/" + r) == " " + Strip(r)
  {
    var a, t := "/*" + c + "*/", "/*" + c + "*/" + r;
    assert t[0] == '/' && t[1] == '*';
    assert forall j :: 0 <= j < |c| ==> t[j + 2] == c[j];
    assert t[|c| + 2] == '*' && t[|c| + 3] == '/';
    forall j | 2 <= j < |c| + 2
      ensures !(t[j] == '*' && t[j + 1] == '/')
    {
      assert t[j] == c[j - 2];
      if j + 1 < |c| + 2 {
        assert t[j + 1] == c[j - 1];
      }
    }
    BlockEndFound(t, 2, |c| + 2);
    StripFirst(a, r);
  }

  /** A block comment becomes a space. */
  lemma {:induction false} BlockBlanked(p: string, c: string, r: string)
    requires AllOrdinary(p) && NoBlockEnd(c)
    ensures Strip(p + ("/*" + c + "*/" + r)) == p + " " + Strip(r)
  {
    OrdinaryStays(p, "/*" + c + "*/" + r);
    BlockFirst(c, r);
    assert p + (" " + Strip(r)) == p + " " + Strip(r);
  }

  /** One without an end is dropped with all that follows. */
  lemma {:induction false} OpenBlockDropped(p: string, c: string)
    requires AllOrdinary(p) && NoBlockEnd(c)
    ensures Strip(p + ("/*" + c)) == p
  {
    var t := "/*" + c;
    OrdinaryStays(p, t);
    assert t[0] == '/' && t[1] == '*';
    forall j | 2 <= j < |t| - 1
      ensures !(t[j] == '*' && t[j + 1] == '/')
    {
      assert t[j] == c[j - 2] && t[j + 1] == c[j - 1];
    }
    NoBlockEndFound(t, 2);
    assert t + [] == t;
    StripFirst(t, []);
    NothingLeft([]);
  }

  /** Text inside a quote: the quote itself only after a backslash. */
  predicate IsQuotedBody(b: string, quote: char) {
    b == []
    || (b[0] == '\\' && |b| >= 2 && IsQuotedBody(b[2..], quote))
    || (b[0] != '\\' && b[0] != quote && IsQuotedBody(b[1..], quote))
  }

  lemma {:induction false} QuoteEndFound(s: string, i: nat, b: string, r: string, quote: char)
    requires i <= |s| && IsQuotedBody(b, quote) && s[i..] == b + ([quote] + r) && quote != '\\'
    ensures QuoteEnd(s, i, quote) == i + |b| + 1
    decreases |b|
  {
    var t := b + ([quote] + r);
    assert s[i] == t[0];
    if b != [] {
      assert t[0] == b[0] && s[i + 1] == t[1];
      var n := if b[0] == '\\' then 2 else 1;
      assert s[i + n..] == t[n..] == b[n..] + ([quote] + r);
      QuoteEndFound(s, i + n, b[n..], r, quote);
    }
  }

  /** The same, where the text ends; it may end in a backslash. */
  predicate IsOpenBody(b: string, quote: char) {
    b == [] || b == "\\"
    || (b[0] == '\\' && |b| >= 2 && IsOpenBody(b[2..], quote))
    || (b[0] != '\\' && b[0] != quote && IsOpenBody(b[1..], quote))
  }

  lemma {:induction false} NoQuoteEndFound(s: string, i: nat, b: string, quote: char)
    requires i <= |s| && IsOpenBody(b, quote) && s[i..] == b && quote != '\\'
    ensures QuoteEnd(s, i, quote) == |s|
    decreases |b|
  {
    if b != [] {
      assert s[i] == b[0];
      var n := if b[0] == '\\' && |b| >= 2 then 2 else 1;
      assert s[i + n..] == b[n..];
      NoQuoteEndFound(s, i + n, b[n..], quote);
    }
  }

  /** A quoted segment stays, whatever looks like a comment in it; an escaped quote does not end it. */
  lemma {:induction false} QuoteStays(p: string, quote: char, b: string, r: string)
    requires AllOrdinary(p) && quote in {'\'', '"', '`'} && IsQuotedBody(b, quote)
    ensures Strip(p + ([quote] + b + [quote] + r)) == p + [quote] + b + [quote] + Strip(r)
  {
    OrdinaryStays(p, [quote] + b + [quote] + r);
    QuoteFirst(quote, b, r);
    assert p + ([quote] + b + [quote] + Strip(r)) == p + [quote] + b + [quote] + Strip(r);
  }

  lemma {:induction false} QuoteFirst(quote: char, b: string, r: string)
    requires quote in {'\'', '"', '`'} && IsQuotedBody(b, quote)
    ensures Strip([quote] + b + [quote] + r) == [quote] + b + [quote] + Strip(r)
  {
    var a, t := [quote] + b + [quote], [quote] + b + [quote] + r;
    assert t[0] == quote && t[1..] == b + ([quote] + r);
    QuoteEndFound(t, 1, b, r, quote);
    assert t[..|a|] == a;
    StripFirst(a, r);
  }

  lemma {:induction false} OpenQuoteFirst(quote: char, b: string)
    requires quote in {'\'', '"', '`'} && IsOpenBody(b, quote)
    ensures Strip([quote] + b) == [quote] + b
  {
    var t := [quote] + b;
    assert t[0] == quote && t[1..] == b;
    NoQuoteEndFound(t, 1, b, quote);
    assert t + [] == t && t[..|t|] == t;
    StripFirst(t, []);
    NothingLeft([]);
  }

  /** One without an end stays to the end. */
  lemma {:induction false} OpenQuoteStays(p: string, quote: char, b: string)
    requires AllOrdinary(p) && quote in {'\'', '"', '`'} && IsOpenBody(b, quote)
    ensures Strip(p + ([quote] + b)) == p + [quote] + b
  {
    OrdinaryStays(p, [quote] + b);
    OpenQuoteFirst(quote, b);
    assert p + ([quote] + b) == p + [quote] + b;
  }
}
