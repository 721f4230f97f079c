/** The glob-to-regex translator `fnmatch_pathname_to_regex`
    (workonsh/utils.py): fnmatch-style wildcards where `*` and `?` never
    cross a path separator, written out as regular-expression text.

    The specification reads the pattern token by token (`TokenAt`, which
    returns the token at an index and the index after it) and renders each
    token on its own (`Render`); `TranslateFrom` strings the renderings
    together.  The method `FnmatchPathnameToRegex` is the source's
    index-walking loop, proved to produce `Translate`.  The separator is
    POSIX: `os.sep` is '/' and there is no `os.altsep`. */
module Glob {

  /** `'[' + '|'.join(seps) + ']'`: a character class holding the separator. */
  const SepGroup: string := "[/]"
  /** `'[^' + '|'.join(seps) + ']'`: any character but the separator. */
  const NonSep: string := "[^/]"

  /** One unit of the pattern, as the translation loop consumes it. */
  datatype Token =
    | Star                  // `*` not followed by another `*`
    | AnySegments           // `**` followed by a character other than `/`
    | AnySegmentsAtEnd      // `**` as the last two characters
    | AnyDirectories        // `**` followed by `/`
    | AnyChar               // `?`
    | Separator             // `/`
    | Class(body: string)   // `[body]`, a terminated bracket expression
    | OpenBracket           // `[` with no `]` to close it
    | Literal(c: char)      // any other character, copied as it is

  /** The pattern text a token was read from. */
  function Spell(t: Token): string {
    match t
    case Star => "*"
    case AnySegments => "**"
    case AnySegmentsAtEnd => "**"
    case AnyDirectories => "**/"
    case AnyChar => "?"
    case Separator => "/"
    case Class(b) => "[" + b + "]"
    case OpenBracket => "["
    case Literal(c) => [c]
  }

  /** The characters the translation treats specially. */
  predicate Special(c: char) {
    c == '*' || c == '?' || c == '/' || c == '['
  }

  /** `s.replace('\\', '\\\\')`. */
  function EscapeBackslashes(s: string): string {
    if s == [] then []
    else (if s[0] == '\\' then "\\\\" else [s[0]]) + EscapeBackslashes(s[1..])
  }

  /** Reads a doubled backslash back as one. */
  function UnescapeBackslashes(s: string): string
    decreases |s|
  {
    if s == [] then []
    else if |s| >= 2 && s[0] == '\\' && s[1] == '\\' then "\\" + UnescapeBackslashes(s[2..])
    else [s[0]] + UnescapeBackslashes(s[1..])
  }

  /** Doubling the backslashes of a class body loses nothing. */
  lemma {:induction false} EscapeBackslashesRoundTrip(s: string)
    ensures UnescapeBackslashes(EscapeBackslashes(s)) == s
  {
    if s != [] {
      EscapeBackslashesRoundTrip(s[1..]);
      var e := EscapeBackslashes(s);
      if s[0] == '\\' {
        assert e == "\\\\" + EscapeBackslashes(s[1..]);
        assert e[2..] == EscapeBackslashes(s[1..]);
      } else {
        assert e == [s[0]] + EscapeBackslashes(s[1..]);
        assert e[1..] == EscapeBackslashes(s[1..]);
      }
    }
  }

  /** Doubling keeps the first character, and after a first character that
      is not a backslash it is the doubling of the rest. */
  lemma EscapeBackslashesHead(s: string)
    requires |s| > 0
    ensures |EscapeBackslashes(s)| > 0 && EscapeBackslashes(s)[0] == s[0]
    ensures s[0] != '\\' ==> EscapeBackslashes(s) == [s[0]] + EscapeBackslashes(s[1..])
  {
  }

  /** The regex class written for an escaped class body `stuff`: a leading
      `!` becomes `^`, and a leading `^` gets the separator in front. */
  function ClassRegex(stuff: string): string {
    if |stuff| > 0 && stuff[0] == '!' then "[" + ("^" + stuff[1..]) + "]"
    else if |stuff| > 0 && stuff[0] == '^' then "[" + ("/" + stuff) + "]"
    else "[" + stuff + "]"
  }

  /** The regex text the loop appends to `res` for a token. */
  function Render(t: Token): string {
    match t
    case Star => NonSep + "*"
    case AnySegments => ".*"
    case AnySegmentsAtEnd => ".*" + (NonSep + "*")
    case AnyDirectories => ".*" + (SepGroup + "?")
    case AnyChar => NonSep
    case Separator => SepGroup
    case Class(b) => ClassRegex(EscapeBackslashes(b))
    case OpenBracket => "\\["
    case Literal(c) => [c]
  }

  /** The first `]` of `p` at or after index `j`, or `|p|` if there is none. */
  function ClassEnd(p: string, j: nat): (e: nat)
    requires j <= |p|
    ensures j <= e <= |p|
    decreases |p| - j
  {
    if j == |p| || p[j] == ']' then j else ClassEnd(p, j + 1)
  }

  /** `ClassEnd` finds the first `]`: there is none before it, and there is
      one at it unless the search ran off the end. */
  lemma {:induction false} ClassEndIsFirst(p: string, j: nat)
    requires j <= |p|
    ensures ClassEnd(p, j) < |p| ==> p[ClassEnd(p, j)] == ']'
    ensures forall k :: j <= k < ClassEnd(p, j) ==> p[k] != ']'
    decreases |p| - j
  {
    if j < |p| && p[j] != ']' {
      ClassEndIsFirst(p, j + 1);
    }
  }

  /** Conversely, the first `]` at or after `j` is where `ClassEnd` stops,
      and with no `]` at all it runs to the end. */
  lemma {:induction false} ClassEndAt(p: string, j: nat, e: nat)
    requires j <= e <= |p|
    requires e < |p| ==> p[e] == ']'
    requires forall k :: j <= k < e ==> p[k] != ']'
    ensures ClassEnd(p, j) == e
    decreases e - j
  {
    if j < e {
      ClassEndAt(p, j + 1, e);
    }
  }

  /** Where the search for the `]` closing the class opened by `p[i] == '['`
      starts: past an optional `!` and then an optional `]`. */
  function ClassSearchStart(p: string, i: nat): (j: nat)
    requires i < |p|
    ensures i + 1 <= j <= |p|
  {
    var j1 := if i + 1 < |p| && p[i + 1] == '!' then i + 2 else i + 1;
    if j1 < |p| && p[j1] == ']' then j1 + 1 else j1
  }

  /** The token at index `i` of `p` and the index just past it. */
  function TokenAt(p: string, i: nat): (r: (Token, nat))
    requires i < |p|
    ensures i < r.1 <= |p|
  {
    if p[i] == '*' then
      if i + 1 < |p| && p[i + 1] == '*' then
        if i + 2 == |p| then (AnySegmentsAtEnd, i + 2)
        else if p[i + 2] == '/' then (AnyDirectories, i + 3)
        else (AnySegments, i + 2)
      else (Star, i + 1)
    else if p[i] == '?' then (AnyChar, i + 1)
    else if p[i] == '/' then (Separator, i + 1)
    else if p[i] == '[' then
      var e := ClassEnd(p, ClassSearchStart(p, i));
      if e == |p| then (OpenBracket, i + 1)
      else (Class(p[i + 1..e]), e + 1)
    else (Literal(p[i]), i + 1)
  }

  // Small facts about slices, each proved where nothing else is in scope.

  lemma SliceCons(p: string, i: nat, j: nat)
    requires i < j <= |p|
    ensures p[i..j] == [p[i]] + p[i + 1..j]
  {
  }

  lemma SliceSingle(p: string, i: nat)
    requires i < |p|
    ensures p[i..i + 1] == [p[i]]
  {
  }

  lemma SliceSplit(p: string, i: nat, n: nat)
    requires i <= n <= |p|
    ensures p[i..] == p[i..n] + p[n..]
  {
  }

  lemma SliceBracketed(p: string, i: nat, n: nat)
    requires i + 2 <= n <= |p| && p[i] == '[' && p[n - 1] == ']'
    ensures p[i..n] == "[" + p[i + 1..n - 1] + "]"
  {
  }

  lemma SliceDoubleStar(p: string, i: nat)
    requires i + 2 <= |p| && p[i] == '*' && p[i + 1] == '*'
    ensures p[i..i + 2] == "**"
    ensures i + 3 <= |p| && p[i + 2] == '/' ==> p[i..i + 3] == "**/"
  {
  }

  lemma TailOfCons<T>(x: T, xs: seq<T>)
    ensures ([x] + xs)[1..] == xs
  {
  }

  /** The token at `i` for every first character but `[`, as the loop
      decides it. */
  lemma TokenCases(p: string, i: nat)
    requires i < |p|
    ensures p[i] == '*' && (i + 1 == |p| || p[i + 1] != '*') ==>
      TokenAt(p, i).0 == Star && TokenAt(p, i).1 == i + 1
    ensures p[i] == '*' && i + 2 == |p| && p[i + 1] == '*' ==>
      TokenAt(p, i).0 == AnySegmentsAtEnd && TokenAt(p, i).1 == i + 2
    ensures p[i] == '*' && i + 2 < |p| && p[i + 1] == '*' && p[i + 2] == '/' ==>
      TokenAt(p, i).0 == AnyDirectories && TokenAt(p, i).1 == i + 3
    ensures p[i] == '*' && i + 2 < |p| && p[i + 1] == '*' && p[i + 2] != '/' ==>
      TokenAt(p, i).0 == AnySegments && TokenAt(p, i).1 == i + 2
    ensures p[i] == '?' ==> TokenAt(p, i).0 == AnyChar && TokenAt(p, i).1 == i + 1
    ensures p[i] == '/' ==> TokenAt(p, i).0 == Separator && TokenAt(p, i).1 == i + 1
    ensures !Special(p[i]) ==> TokenAt(p, i).0 == Literal(p[i]) && TokenAt(p, i).1 == i + 1
  {
  }

  /** A token is read from exactly the characters it consumes; a class body
      is never empty and a literal is never a special character. */
  lemma TokenSpelled(p: string, i: nat)
    requires i < |p|
    ensures Spell(TokenAt(p, i).0) == p[i..TokenAt(p, i).1]
    ensures TokenAt(p, i).0.Class? ==> |TokenAt(p, i).0.body| > 0
    ensures TokenAt(p, i).0.Literal? ==> !Special(TokenAt(p, i).0.c)
  {
    TokenCases(p, i);
    if p[i] == '[' {
      var e := ClassEnd(p, ClassSearchStart(p, i));
      if e < |p| {
        ClassEndIsFirst(p, ClassSearchStart(p, i));
        ClassTokenAt(p, i, e);
        SliceBracketed(p, i, e + 1);
      } else {
        OpenBracketToken(p, i);
        SliceSingle(p, i);
      }
    } else if p[i] == '*' && i + 1 < |p| && p[i + 1] == '*' {
      SliceDoubleStar(p, i);
    } else {
      SliceSingle(p, i);
    }
  }

  /** The tokens of `p` from index `i` on, as the translation loop reads them. */
  function TokensFrom(p: string, i: nat): seq<Token>
    requires i <= |p|
    decreases |p| - i
  {
    if i == |p| then []
    else
      var (t, n) := TokenAt(p, i);
      [t] + TokensFrom(p, n)
  }

  function Spelling(ts: seq<Token>): string {
    if ts == [] then [] else Spell(ts[0]) + Spelling(ts[1..])
  }

  function RenderAll(ts: seq<Token>): string {
    if ts == [] then [] else Render(ts[0]) + RenderAll(ts[1..])
  }

  /** The regex text for `p` from index `i` on: each token rendered in turn. */
  function TranslateFrom(p: string, i: nat): string
    requires i <= |p|
    decreases |p| - i
  {
    if i == |p| then []
    else
      var (t, n) := TokenAt(p, i);
      Render(t) + TranslateFrom(p, n)
  }

  /** One step of the translation: the token `t` at `i`, then the rest
      from the index `n` past it. */
  lemma TranslateStep(p: string, i: nat, t: Token, n: nat)
    requires i < |p| && TokenAt(p, i).0 == t && TokenAt(p, i).1 == n
    ensures TranslateFrom(p, i) == Render(t) + TranslateFrom(p, n)
  {
  }

  /** What `fnmatch_pathname_to_regex` returns for `pattern`. */
  function Translate(pattern: string): string {
    TranslateFrom(pattern, 0)
  }

  /** Tokenizing consumes every character of the pattern exactly once and in
      order: spelling the tokens back gives the pattern. */
  lemma {:induction false} SpellingOfTokens(p: string, i: nat)
    requires i <= |p|
    ensures Spelling(TokensFrom(p, i)) == p[i..]
    decreases |p| - i
  {
    if i < |p| {
      var (t, n) := TokenAt(p, i);
      TokenSpelled(p, i);
      SpellingOfTokens(p, n);
      TailOfCons(t, TokensFrom(p, n));
      SliceSplit(p, i, n);
    }
  }

  /** The translation is the concatenated rendering of the token sequence. */
  lemma {:induction false} TranslateRendersTokens(p: string, i: nat)
    requires i <= |p|
    ensures TranslateFrom(p, i) == RenderAll(TokensFrom(p, i))
    decreases |p| - i
  {
    if i < |p| {
      var (t, n) := TokenAt(p, i);
      TranslateRendersTokens(p, n);
      TailOfCons(t, TokensFrom(p, n));
    }
  }

  /** Wildcards, separators and brackets are never read as literal
      characters. */
  lemma {:induction false} LiteralsAreOrdinary(p: string, i: nat)
    requires i <= |p|
    ensures forall k :: 0 <= k < |TokensFrom(p, i)| && TokensFrom(p, i)[k].Literal? ==>
      !Special(TokensFrom(p, i)[k].c)
    decreases |p| - i
  {
    if i < |p| {
      var (t, n) := TokenAt(p, i);
      TokenSpelled(p, i);
      LiteralsAreOrdinary(p, n);
      assert TokensFrom(p, i) == [t] + TokensFrom(p, n);
    }
  }

  /** A stretch without special characters is copied unescaped. */
  lemma {:induction false} LiteralRun(p: string, i: nat, j: nat)
    requires i <= j <= |p|
    requires forall k :: i <= k < j ==> !Special(p[k])
    ensures TranslateFrom(p, i) == p[i..j] + TranslateFrom(p, j)
    decreases j - i
  {
    if i < j {
      LiteralRun(p, i + 1, j);
      LiteralRule(p, i);
      SliceCons(p, i, j);
      Reassociate([p[i]], p[i + 1..j], TranslateFrom(p, j), TranslateFrom(p, i), p[i..j]);
    }
  }

  /** An ordinary character is copied as it is. */
  lemma LiteralRule(p: string, i: nat)
    requires i < |p| && !Special(p[i])
    ensures TranslateFrom(p, i) == [p[i]] + TranslateFrom(p, i + 1)
  {
    TranslateStep(p, i, Literal(p[i]), i + 1);
  }

  /** A pattern without special characters translates to itself. */
  lemma PlainTextCopied(p: string)
    requires forall k :: 0 <= k < |p| ==> !Special(p[k])
    ensures Translate(p) == p
  {
    LiteralRun(p, 0, |p|);
  }

  /** Every token renders to some text, and only the literal `^` renders
      to text starting with `^`. */
  lemma RenderHead(t: Token)
    ensures |Render(t)| > 0 && (Render(t)[0] == '^' <==> t == Literal('^'))
  {
  }

  /** The translation of a non-empty pattern is non-empty, and it starts
      with `^` exactly when the pattern does. */
  lemma TranslateHead(p: string)
    requires |p| > 0
    ensures |Translate(p)| > 0 && (Translate(p)[0] == '^' <==> p[0] == '^')
  {
    TokenCases(p, 0);
    TranslateStep(p, 0, TokenAt(p, 0).0, TokenAt(p, 0).1);
    RenderHead(TokenAt(p, 0).0);
  }

  /** A single `*` gives `[^/]*`: any run within one path segment. */
  lemma StarRule(p: string, i: nat)
    requires i < |p| && p[i] == '*' && (i + 1 == |p| || p[i + 1] != '*')
    ensures TranslateFrom(p, i) == NonSep + "*" + TranslateFrom(p, i + 1)
  {
    TranslateStep(p, i, Star, i + 1);
  }

  /** `?` gives `[^/]`. */
  lemma AnyCharRule(p: string, i: nat)
    requires i < |p| && p[i] == '?'
    ensures TranslateFrom(p, i) == NonSep + TranslateFrom(p, i + 1)
  {
    TranslateStep(p, i, AnyChar, i + 1);
  }

  /** `/` gives `[/]`. */
  lemma SeparatorRule(p: string, i: nat)
    requires i < |p| && p[i] == '/'
    ensures TranslateFrom(p, i) == SepGroup + TranslateFrom(p, i + 1)
  {
    TranslateStep(p, i, Separator, i + 1);
  }

  /** `**` then `/` gives `.*[/]?`. */
  lemma AnyDirectoriesRule(p: string, i: nat)
    requires i + 2 < |p| && p[i] == '*' && p[i + 1] == '*' && p[i + 2] == '/'
    ensures TranslateFrom(p, i) == ".*" + (SepGroup + "?") + TranslateFrom(p, i + 3)
  {
    TranslateStep(p, i, AnyDirectories, i + 3);
  }

  /** `**` then anything but `/` gives `.*`. */
  lemma AnySegmentsRule(p: string, i: nat)
    requires i + 2 < |p| && p[i] == '*' && p[i + 1] == '*' && p[i + 2] != '/'
    ensures TranslateFrom(p, i) == ".*" + TranslateFrom(p, i + 2)
  {
    TranslateStep(p, i, AnySegments, i + 2);
  }

  /** A trailing `**` gives `.*[^/]*`. */
  lemma TrailingAnyRule(p: string, i: nat)
    requires i + 2 == |p| && p[i] == '*' && p[i + 1] == '*'
    ensures TranslateFrom(p, i) == ".*[^/]*"
  {
    assert TokenAt(p, i).0 == AnySegmentsAtEnd && TokenAt(p, i).1 == i + 2;
  }

  /** The token a `[` starts when a `]` closes it at `e`: a class. */
  lemma ClassTokenAt(p: string, i: nat, e: nat)
    requires i < |p| && p[i] == '['
    requires e == ClassEnd(p, ClassSearchStart(p, i)) && e < |p|
    ensures TokenAt(p, i).0 == Class(p[i + 1..e]) && TokenAt(p, i).1 == e + 1
  {
  }

  /** The token a `[` starts when no `]` closes it: a lone bracket. */
  lemma OpenBracketToken(p: string, i: nat)
    requires i < |p| && p[i] == '['
    requires ClassEnd(p, ClassSearchStart(p, i)) == |p|
    ensures TokenAt(p, i).0 == OpenBracket && TokenAt(p, i).1 == i + 1
  {
  }

  /** A `[` that no `]` closes is the literal `\[`, and the loop goes on
      right after it.  A `]` straight after `[` or `[!` does not close the
      class, so `[]` and `[!]` are unterminated too. */
  lemma UnterminatedBracketRule(p: string, i: nat)
    requires i < |p| && p[i] == '['
    requires forall k :: ClassSearchStart(p, i) <= k < |p| ==> p[k] != ']'
    ensures TranslateFrom(p, i) == "\\[" + TranslateFrom(p, i + 1)
  {
    ClassEndAt(p, ClassSearchStart(p, i), |p|);
    OpenBracketToken(p, i);
  }

  /** `[]` and `[!]` on their own: the bracket is escaped and the rest is
      copied. */
  lemma EmptyClassesAreLiteral()
    ensures Translate("[]") == "\\[]"
    ensures Translate("[!]") == "\\[!]"
  {
    UnterminatedBracketRule("[]", 0);
    LiteralRun("[]", 1, 2);
    UnterminatedBracketRule("[!]", 0);
    LiteralRun("[!]", 1, 3);
  }

  /** A class is rendered from its body, the characters strictly between
      `[` and the first `]` that follows the search start. */
  lemma ClassRule(p: string, i: nat, e: nat)
    requires i < |p| && p[i] == '['
    requires ClassSearchStart(p, i) <= e < |p| && p[e] == ']'
    requires forall k :: ClassSearchStart(p, i) <= k < e ==> p[k] != ']'
    ensures TokenAt(p, i).0 == Class(p[i + 1..e])
    ensures TranslateFrom(p, i) == ClassRegex(EscapeBackslashes(p[i + 1..e])) + TranslateFrom(p, e + 1)
  {
    ClassEndAt(p, ClassSearchStart(p, i), e);
    ClassStep(p, i, e);
  }

  /** `ClassRule` with the class end given as `ClassEnd`'s answer. */
  lemma ClassStep(p: string, i: nat, e: nat)
    requires i < |p| && p[i] == '['
    requires e == ClassEnd(p, ClassSearchStart(p, i)) && e < |p|
    ensures TokenAt(p, i).0 == Class(p[i + 1..e])
    ensures TranslateFrom(p, i) == ClassRegex(EscapeBackslashes(p[i + 1..e])) + TranslateFrom(p, e + 1)
  {
    ClassTokenAt(p, i, e);
    TranslateStep(p, i, Class(p[i + 1..e]), e + 1);
    RenderOfClass(p[i + 1..e]);
  }

  /** A `]` right after `[`, or right after `[!`, belongs to the class: the
      search for the closing `]` starts after it. */
  lemma LeadingBracketInClass(p: string, i: nat)
    requires i + 1 < |p| && p[i] == '['
    ensures p[i + 1] == ']' ==> ClassSearchStart(p, i) == i + 2
    ensures i + 2 < |p| && p[i + 1] == '!' && p[i + 2] == ']' ==> ClassSearchStart(p, i) == i + 3
  {
  }

  /** A class body not starting with `!` or `^` is copied with its
      backslashes doubled. */
  lemma PlainClassRegex(b: string)
    requires |b| > 0 && b[0] != '!' && b[0] != '^'
    ensures ClassRegex(EscapeBackslashes(b)) == "[" + EscapeBackslashes(b) + "]"
  {
    EscapeBackslashesHead(b);
  }

  /** A leading `!` negates the class, written `^` in the regex. */
  lemma NegatedClassRegex(b: string)
    ensures ClassRegex(EscapeBackslashes("!" + b)) == "[^" + EscapeBackslashes(b) + "]"
  {
    EscapeBackslashesHead("!" + b);
    assert ("!" + b)[1..] == b;
    var e := EscapeBackslashes(b);
    assert "[" + ("^" + e) + "]" == "[^" + e + "]";
  }

  /** A leading `^` stands for itself: the separator is put in front of it. */
  lemma CaretClassRegex(b: string)
    ensures ClassRegex(EscapeBackslashes("^" + b)) == "[/^" + EscapeBackslashes(b) + "]"
  {
    EscapeBackslashesHead("^" + b);
    assert ("^" + b)[1..] == b;
    var e := EscapeBackslashes(b);
    assert "[" + ("/" + ("^" + e)) + "]" == "[/^" + e + "]";
  }

  /** A class token is rendered by `ClassRegex` from its escaped body. */
  lemma RenderOfClass(body: string)
    ensures Render(Class(body)) == ClassRegex(EscapeBackslashes(body))
  {
  }

  /** `"".join(res)`. */
  function Join(parts: seq<string>): string {
    if parts == [] then [] else Join(parts[..|parts| - 1]) + parts[|parts| - 1]
  }

  lemma JoinAppend(parts: seq<string>, x: string)
    ensures Join(parts + [x]) == Join(parts) + x
  {
    assert (parts + [x])[..|parts|] == parts;
  }

  /** Regrouping a concatenation of three strings. */
  lemma Reassociate(a: string, r: string, y: string, whole: string, left: string)
    requires whole == a + (r + y) && left == a + r
    ensures left + y == whole
  {
  }

  /** The loop invariant: the pieces in `res` followed by the translation
      of the rest of the pattern from `i` on make up the whole translation. */
  ghost predicate TranslatedUpTo(p: string, i: nat, res: seq<string>)
    requires i <= |p|
  {
    Join(res) + TranslateFrom(p, i) == Translate(p)
  }

  /** Appending two pieces to `res` appends their concatenation to its join. */
  lemma JoinAppend2(parts: seq<string>, x: string, y: string)
    ensures Join(parts + [x] + [y]) == Join(parts) + (x + y)
  {
    JoinAppend(parts, x);
    JoinAppend(parts + [x], y);
    Reassociate(Join(parts), x, y, Join(parts) + (x + y), Join(parts + [x]));
  }

  /** The loop invariant survives appending the rendering of the token at
      `i` to the pieces and moving on to the index after it. */
  lemma Advance(p: string, i: nat, t: Token, n: nat, res0: seq<string>, res: seq<string>)
    requires i < |p| && TokenAt(p, i).0 == t && TokenAt(p, i).1 == n
    requires TranslatedUpTo(p, i, res0)
    requires Join(res) == Join(res0) + Render(t)
    ensures TranslatedUpTo(p, n, res)
  {
    TranslateStep(p, i, t, n);
    Reassociate(Join(res0), Render(t), TranslateFrom(p, n), Translate(p), Join(res));
  }

  /** The scan for the `]` that closes a class, from index `j` on. */
  method FindClassEnd(pattern: string, j: nat) returns (e: nat)
    requires j <= |pattern|
    ensures e == ClassEnd(pattern, j)
  {
    e := j;
    while e < |pattern| && pattern[e] != ']'
      invariant j <= e <= |pattern|
      invariant ClassEnd(pattern, e) == ClassEnd(pattern, j)
      decreases |pattern| - e
    {
      e := e + 1;
    }
  }

  /** The `[` branch of the translation loop, for the `[` at index `i`:
      the regex text it appends and the index the loop resumes at. */
  method TranslateBracket(pattern: string, i: nat) returns (piece: string, next: nat)
    requires i < |pattern| && pattern[i] == '['
    ensures TokenAt(pattern, i).0.OpenBracket? || TokenAt(pattern, i).0.Class?
    ensures piece == Render(TokenAt(pattern, i).0) && next == TokenAt(pattern, i).1
  {
    var n := |pattern|;
    var j := i + 1;
    if j < n && pattern[j] == '!' {
      j := j + 1;
    }
    if j < n && pattern[j] == ']' {
      j := j + 1;
    }
    assert j == ClassSearchStart(pattern, i);
    j := FindClassEnd(pattern, j);
    if j >= n {
      OpenBracketToken(pattern, i);
      piece, next := "\\[", i + 1;
    } else {
      ClassTokenAt(pattern, i, j);
      ghost var body := pattern[i + 1..j];
      EscapeBackslashesHead(body);
      RenderOfClass(body);
      var stuff := EscapeBackslashes(pattern[i + 1..j]);
      if stuff[0] == '!' {
        stuff := "^" + stuff[1..];
      } else if stuff[0] == '^' {
        stuff := "/" + stuff;
      }
      piece, next := "[" + stuff + "]", j + 1;
    }
  }

  /** One pass of the translation loop's body, for the token at index `i`:
      appends the regex pieces the source appends for it to `res0` and
      returns the index the loop resumes at. */
  method TranslateToken(pattern: string, i: nat, res0: seq<string>) returns (res: seq<string>, next: nat)
    requires i < |pattern|
    ensures Join(res) == Join(res0) + Render(TokenAt(pattern, i).0)
    ensures next == TokenAt(pattern, i).1
  {
    var n := |pattern|;
    TokenCases(pattern, i);
    var c := pattern[i];
    next := i + 1;
    if c == '*' {
      if next >= n {
        // `pattern[i]` raises IndexError: the handler appends `nonsep*`
        res := res0 + [NonSep + "*"];
        JoinAppend(res0, NonSep + "*");
      } else if pattern[next] == '*' {
        next := next + 1;
        if next >= n {
          // the second `pattern[i]` raises IndexError after `.*` is out
          res := res0 + [".*"];
          res := res + [NonSep + "*"];
          JoinAppend2(res0, ".*", NonSep + "*");
        } else if pattern[next] == '/' {
          next := next + 1;
          res := res0 + [".*"];
          res := res + [SepGroup + "?"];
          JoinAppend2(res0, ".*", SepGroup + "?");
        } else {
          res := res0 + [".*"];
          JoinAppend(res0, ".*");
        }
      } else {
        res := res0 + [NonSep + "*"];
        JoinAppend(res0, NonSep + "*");
      }
    } else if c == '?' {
      res := res0 + [NonSep];
      JoinAppend(res0, NonSep);
    } else if c == '/' {
      res := res0 + [SepGroup];
      JoinAppend(res0, SepGroup);
    } else if c == '[' {
      var piece;
      piece, next := TranslateBracket(pattern, i);
      res := res0 + [piece];
      JoinAppend(res0, piece);
    } else {
      res := res0 + [[c]];
      JoinAppend(res0, [c]);
    }
  }

  /** `fnmatch_pathname_to_regex(pattern, directory_only)`: walks the pattern
      with index `i`, appending regex pieces to `res`.  `directoryOnly` is
      accepted and, as in the source, has no influence on the result. */
  method FnmatchPathnameToRegex(pattern: string, directoryOnly: bool) returns (regex: string)
    ensures regex == Translate(pattern)
  {
    var i: nat, n := 0, |pattern|;
    var res: seq<string> := [];
    while i < n
      invariant i <= n
      invariant TranslatedUpTo(pattern, i, res)
      decreases n - i
    {
      ghost var i0, res0 := i, res;
      res, i := TranslateToken(pattern, i, res);
      Advance(pattern, i0, TokenAt(pattern, i0).0, i, res0, res);
    }
    regex := Join(res);
  }
}
