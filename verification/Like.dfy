/** SQL LIKE and the regular expression the translator prints for it (expr.go). */
module Like {
  import opened Wrappers

  function Lower(c: char): char {
    if 'A' <= c <= 'Z' then (c as int + 32) as char else c
  }

  predicate SameLetter(a: char, b: char) {
    Lower(a) == Lower(b)
  }

  predicate Cases(upper: char, lower: char) {
    'A' <= upper <= 'Z' && 'a' <= lower <= 'z' && lower as int - 'a' as int == upper as int - 'A' as int
  }

  /** Equal, or the two cases of one of the letters A to Z. */
  lemma {:induction false} SameLetterExactly(a: char, b: char)
    ensures SameLetter(a, b) <==> a == b || Cases(a, b) || Cases(b, a)
  {
  }

  // ----- SQL LIKE -----

  /** `subject LIKE pattern`: escape character backslash, letters compared without case. */
  predicate SqlLike(p: string, s: string)
    decreases |p|
  {
    if p == [] then s == []
    else if p[0] == '\\' && |p| >= 2 then
      s != [] && SameLetter(s[0], p[1]) && SqlLike(p[2..], s[1..])
    else if p[0] == '%' then
      exists k {:trigger s[k..]} :: 0 <= k <= |s| && SqlLike(p[1..], s[k..])
    else if p[0] == '_' then
      s != [] && SqlLike(p[1..], s[1..])
    else
      s != [] && SameLetter(s[0], p[0]) && SqlLike(p[1..], s[1..])
  }

  // ----- regular expressions -----

  const META := "\\.+*?()|[]{}^$"

  function QuoteMeta(c: char): string {
    if c in META then ['\\', c] else [c]
  }

  /** The characters that mean something in a regular expression. */
  predicate IsMeta(c: char) {
    match c
    case '\\' | '^' | '$' | '.' | '|' | '?' | '*' | '+' | '(' | ')' | '[' | ']' | '{' | '}' => true
    case _ => false
  }

  datatype Token = Lit(c: char) | One | Any

  /** Reads the part of a regular expression after `^`, up to the closing `$`. */
  function ParseTokens(r: string): Option<seq<Token>>
    decreases |r|
  {
    if r == [] then None
    else if r == "$" then Some([])
    else if r[0] == '\\' then
      if |r| >= 2 && IsMeta(r[1]) then Cons(Lit(r[1]), ParseTokens(r[2..])) else None
    else if r[0] == '.' then
      if |r| >= 2 && r[1] == '*' then Cons(Any, ParseTokens(r[2..]))
      else Cons(One, ParseTokens(r[1..]))
    else if IsMeta(r[0]) then None
    else Cons(Lit(r[0]), ParseTokens(r[1..]))
  }

  function Cons(t: Token, ts: Option<seq<Token>>): Option<seq<Token>> {
    if ts.Some? then Some([t] + ts.value) else None
  }

  /** Anchored matching: `.` stops at a newline, `$` may stand before a final one. */
  predicate MatchTokens(ts: seq<Token>, insensitive: bool, s: string)
    decreases |ts| + |s|
  {
    if ts == [] then s == [] || s == "\n"
    else
      match ts[0]
      case Lit(c) =>
        s != [] && (if insensitive then SameLetter(s[0], c) else s[0] == c)
        && MatchTokens(ts[1..], insensitive, s[1..])
      case One =>
        s != [] && s[0] != '\n' && MatchTokens(ts[1..], insensitive, s[1..])
      case Any =>
        MatchTokens(ts[1..], insensitive, s)
        || (s != [] && s[0] != '\n' && MatchTokens(ts, insensitive, s[1..]))
  }

  /** Matching for the regular expressions `^...$` made of literals, `.` and `.*`. */
  predicate RegexMatch(regex: string, insensitive: bool, s: string) {
    regex != [] && regex[0] == '^'
    && var ts := ParseTokens(regex[1..]);
       ts.Some? && MatchTokens(ts.value, insensitive, s)
  }

  // ----- the translation -----

  /** The regular expression for a pattern, character class by character class. */
  function RegexBody(p: string): string
    decreases |p|
  {
    if p == [] then []
    else if p[0] == '\\' && |p| >= 2 then QuoteMeta(p[1]) + RegexBody(p[2..])
    else if p[0] == '%' then ".*" + RegexBody(p[1..])
    else if p[0] == '_' then "." + RegexBody(p[1..])
    else QuoteMeta(p[0]) + RegexBody(p[1..])
  }

  function RegexFor(p: string): string {
    "^" + RegexBody(p) + "$"
  }

  lemma {:induction false} BodyStep(rest: string, n: nat, written: string, b: string, whole: string)
    requires n <= |rest| && RegexBody(rest) == written + RegexBody(rest[n..])
    requires b + RegexBody(rest) == whole
    ensures (b + written) + RegexBody(rest[n..]) == whole
  {
    assert b + (written + RegexBody(rest[n..])) == (b + written) + RegexBody(rest[n..]);
  }

  /** The builder loop. */
  method LikeToRegex(pattern: string) returns (b: string)
    ensures b == RegexFor(pattern)
  {
    b := "^";
    var i := 0;
    while i < |pattern|
      invariant 0 <= i <= |pattern|
      invariant b + RegexBody(pattern[i..]) == "^" + RegexBody(pattern)
    {
      var c := pattern[i];
      ghost var rest, whole := pattern[i..], "^" + RegexBody(pattern);
      ghost var before := b;
      var next := i + 1;
      if c == '\\' {
        if i + 1 < |pattern| {
          b := b + QuoteMeta(pattern[i + 1]);
          next := i + 2;
        } else {
          b := b + QuoteMeta(c);
        }
      } else if c == '%' {
        b := b + ".*";
      } else if c == '_' {
        b := b + ".";
      } else {
        b := b + QuoteMeta(c);
      }
      assert b[|before|..] + RegexBody(rest[next - i..]) == RegexBody(rest);
      BodyStep(rest, next - i, b[|before|..], before, whole);
      assert rest[next - i..] == pattern[next..];
      i := next;
    }
    b := b + "$";
  }

  /** One token per pattern element: `%`, `_`, an escaped or a plain character. */
  function LikeTokens(p: string): seq<Token>
    decreases |p|
  {
    if p == [] then []
    else if p[0] == '\\' && |p| >= 2 then [Lit(p[1])] + LikeTokens(p[2..])
    else if p[0] == '%' then [Any] + LikeTokens(p[1..])
    else if p[0] == '_' then [One] + LikeTokens(p[1..])
    else [Lit(p[0])] + LikeTokens(p[1..])
  }

  lemma {:induction false} EscapesMeta(c: char)
    ensures QuoteMeta(c) == if IsMeta(c) then ['\\', c] else [c]
  {
    assert META == ['\\', '.', '+', '*', '?', '(', ')', '|', '[', ']', '{', '}', '^', '$'];
    if IsMeta(c) {
      assert exists i :: 0 <= i < |META| && META[i] == c by {
        assert META[0] == '\\' && META[1] == '.' && META[2] == '+' && META[3] == '*' && META[4] == '?' && META[5] == '(' && META[6] == ')';
        assert META[7] == '|' && META[8] == '[' && META[9] == ']' && META[10] == '{' && META[11] == '}' && META[12] == '^' && META[13] == '$';
      }
    }
  }

  lemma {:induction false} ParseQuoted(c: char, r: string)
    requires r != []
    ensures ParseTokens(QuoteMeta(c) + r) == Cons(Lit(c), ParseTokens(r))
  {
    EscapesMeta(c);
    var t := QuoteMeta(c) + r;
    if IsMeta(c) {
      assert t[2..] == r;
    } else {
      assert t[1..] == r;
    }
  }

  /** The printed body never begins with `*`, so a printed `.` keeps its meaning. */
  lemma {:induction false} BodyStart(p: string)
    ensures (RegexBody(p) + "$")[0] != '*'
  {
    if p != [] {
      EscapesMeta(p[0]);
      if |p| >= 2 {
        EscapesMeta(p[1]);
      }
    }
  }

  lemma {:induction false} ParseDot(r: string)
    requires r != []
    ensures ParseTokens(".*" + r) == Cons(Any, ParseTokens(r))
    ensures r[0] != '*' ==> ParseTokens("." + r) == Cons(One, ParseTokens(r))
  {
    assert (".*" + r)[2..] == r;
    assert ("." + r)[1..] == r;
  }

  /** Escaping is unambiguous: the printed regex reads back as one token per element. */
  lemma {:induction false} PrintedRegexParses(p: string)
    ensures ParseTokens(RegexBody(p) + "$") == Some(LikeTokens(p))
    decreases |p|
  {
    if p == [] {
      assert RegexBody(p) + "$" == "$";
    } else if p[0] == '\\' && |p| >= 2 {
      PrintedRegexParses(p[2..]);
      EscapedParses(p, RegexBody(p[2..]) + "$");
    } else {
      PrintedRegexParses(p[1..]);
      ElementParses(p, RegexBody(p[1..]) + "$");
    }
  }

  lemma {:induction false} EscapedParses(p: string, r: string)
    requires |p| >= 2 && p[0] == '\\' && r == RegexBody(p[2..]) + "$"
    requires ParseTokens(r) == Some(LikeTokens(p[2..]))
    ensures ParseTokens(RegexBody(p) + "$") == Some(LikeTokens(p))
  {
    ParseQuoted(p[1], r);
    assert RegexBody(p) + "$" == QuoteMeta(p[1]) + r;
  }

  lemma {:induction false} ElementParses(p: string, r: string)
    requires p != [] && !(p[0] == '\\' && |p| >= 2) && r == RegexBody(p[1..]) + "$"
    requires ParseTokens(r) == Some(LikeTokens(p[1..]))
    ensures ParseTokens(RegexBody(p) + "$") == Some(LikeTokens(p))
  {
    if p[0] == '%' {
      ParseDot(r);
      assert RegexBody(p) + "$" == ".*" + r;
    } else if p[0] == '_' {
      ParseDot(r);
      BodyStart(p[1..]);
      assert RegexBody(p) + "$" == "." + r;
    } else {
      ParseQuoted(p[0], r);
      assert RegexBody(p) + "$" == QuoteMeta(p[0]) + r;
    }
  }

  /** `.*` consumes any prefix of a newline-free subject. */
  lemma {:induction false} AnyConsumes(ts: seq<Token>, s: string)
    requires '\n' !in s
    ensures MatchTokens([Any] + ts, true, s)
            <==> exists k {:trigger s[k..]} :: 0 <= k <= |s| && MatchTokens(ts, true, s[k..])
    decreases |s|
  {
    var all := [Any] + ts;
    assert all[1..] == ts;
    assert s[0..] == s;
    if s != [] {
      AnyConsumes(ts, s[1..]);
      forall k | 0 <= k <= |s[1..]|
        ensures s[1..][k..] == s[k + 1..]
      {
      }
      if k :| 0 <= k <= |s| && MatchTokens(ts, true, s[k..]) {
        if k > 0 {
          assert s[1..][k - 1..] == s[k..];
        }
      }
    }
  }

  lemma {:induction false} TokensMatchLike(p: string, s: string)
    requires '\n' !in s
    ensures MatchTokens(LikeTokens(p), true, s) == SqlLike(p, s)
    decreases |p|
  {
    if p == [] {
      assert s != "\n" by { assert "\n"[0] == '\n'; }
    } else if p[0] == '\\' && |p| >= 2 {
      if s != [] { TokensMatchLike(p[2..], s[1..]); }
    } else if p[0] == '%' {
      AnyConsumes(LikeTokens(p[1..]), s);
      forall k | 0 <= k <= |s|
        ensures MatchTokens(LikeTokens(p[1..]), true, s[k..]) == SqlLike(p[1..], s[k..])
      {
        TokensMatchLike(p[1..], s[k..]);
      }
    } else {
      if s != [] { TokensMatchLike(p[1..], s[1..]); }
    }
  }

  /** LIKE and its regular expression denote the same language of newline-free subjects. */
  lemma {:induction false} LikeAgrees(p: string, s: string)
    requires '\n' !in s
    ensures RegexMatch(RegexFor(p), true, s) == SqlLike(p, s)
  {
    assert RegexFor(p)[1..] == RegexBody(p) + "$";
    PrintedRegexParses(p);
    TokensMatchLike(p, s);
  }

  // ----- subjects holding a newline -----

  function Underscores(k: nat): string {
    if k == 0 then [] else ['_'] + Underscores(k - 1)
  }

  /** As many `_` as there are characters before a final newline. */
  lemma {:induction false} UnderscoresDisagree(s: string, k: nat)
    requires k == |s| - 1 && s[k] == '\n' && '\n' !in s[..k]
    ensures !SqlLike(Underscores(k), s)
    ensures MatchTokens(LikeTokens(Underscores(k)), true, s)
  {
    var p := Underscores(k);
    if k > 0 {
      assert s[0] == s[..k][0];
      assert s[1..][..k - 1] == s[..k][1..];
      UnderscoresDisagree(s[1..], k - 1);
      assert p[1..] == Underscores(k - 1);
    }
  }

  lemma {:induction false} AnyStops(s: string)
    requires |s| >= 2 && exists i :: 0 <= i < |s| - 1 && s[i] == '\n'
    ensures !MatchTokens([Any], true, s)
    decreases |s|
  {
    assert s != "\n";
    if s[0] != '\n' {
      var i :| 0 <= i < |s| - 1 && s[i] == '\n';
      assert s[1..][i - 1] == '\n';
      AnyStops(s[1..]);
    }
  }

  function FirstNewline(s: string): (k: nat)
    requires '\n' in s
    ensures k < |s| && s[k] == '\n' && '\n' !in s[..k]
  {
    if s[0] == '\n' then 0 else 1 + FirstNewline(s[1..])
  }

  /** The regex is exact for a subject, whatever the pattern, just when it holds no newline. */
  lemma {:induction false} LikeExactlyOnNewlineFree(s: string)
    ensures '\n' !in s
            <==> forall p :: RegexMatch(RegexFor(p), true, s) == SqlLike(p, s)
  {
    if '\n' !in s {
      forall p
        ensures RegexMatch(RegexFor(p), true, s) == SqlLike(p, s)
      {
        LikeAgrees(p, s);
      }
    } else {
      var k := FirstNewline(s);
      var p := if k == |s| - 1 then Underscores(k) else "%";
      assert RegexFor(p)[1..] == RegexBody(p) + "$";
      PrintedRegexParses(p);
      if k == |s| - 1 {
        UnderscoresDisagree(s, k);
      } else {
        AnyStops(s);
        assert LikeTokens(p) == [Any];
        assert s[|s|..] == [] && SqlLike(p[1..], s[|s|..]);
      }
      assert RegexMatch(RegexFor(p), true, s) != SqlLike(p, s);
    }
  }
}
