/** `rule_from_pattern` (workonsh/utils.py): one line of a gitignore-style
    file turned into the regular-expression text that fswatch's `--exclude`
    option takes, or into no rule at all.

    `Compile` states what the function returns for a line, stage by stage
    as the source rewrites its `pattern` variable; `RuleFromPattern` is the
    source's step-by-step code, proved to return `Compile`'s answer.  The
    lemmas after it state what the stages add up to: which lines give no
    rule, that a leading `!` is ignored, when the result is anchored, how
    trailing spaces are treated, and which lines make Python raise
    `IndexError`. */
module IgnoreRule {
  import opened PyText
  import opened Glob

  /** What `rule_from_pattern` does with a line: returns `None`, returns a
      regex, or raises `IndexError` because it indexed into a pattern that
      had been reduced to nothing (or to a lone backslash). */
  datatype Outcome = NoRule | Rule(regex: string) | IndexError

  /** `pattern.find('***') > -1`. */
  predicate HasTripleStar(p: string) {
    exists s :: 0 <= s < |p| - 2 && p[s] == '*' && p[s + 1] == '*' && p[s + 2] == '*'
  }

  /** `pattern[1:]` when the pattern starts with `!`: the negation mark,
      which the function drops and then never uses. */
  function Unbang(p: string): (q: string)
    requires |p| > 0
    ensures p[0] == '!' ==> q == p[1..]
    ensures p[0] != '!' ==> q == p
  {
    if p[0] == '!' then p[1..] else p
  }

  /** A `**` starts at index `s` of `p`. */
  predicate DoubleStarAt(p: string, s: int) {
    0 <= s && s + 1 < |p| && p[s] == '*' && p[s + 1] == '*'
  }

  /** The start indices `re.finditer(r'\*\*', p)` reports when it scans
      from index `from` on: after a match the scan resumes past it, so the
      matches never overlap. */
  function DoubleStarStarts(p: string, from: nat): (ms: seq<nat>)
    requires from <= |p|
    ensures forall k :: 0 <= k < |ms| ==> from <= ms[k] && DoubleStarAt(p, ms[k])
    decreases |p| - from
  {
    if from + 1 >= |p| then []
    else if p[from] == '*' && p[from + 1] == '*' then [from] + DoubleStarStarts(p, from + 2)
    else DoubleStarStarts(p, from + 1)
  }

  /** Where a `**` may stand: at the very start, as the last two
      characters, or with a `/` on both sides. */
  predicate DoubleStarAllowed(p: string, s: nat)
    requires s + 1 < |p|
  {
    s == 0 || s == |p| - 2 || (p[s - 1] == '/' && p[s + 2] == '/')
  }

  /** Every `**` the scan reports is where a `**` may stand. */
  predicate DoubleStarsValid(p: string) {
    var ms := DoubleStarStarts(p, 0);
    forall k :: 0 <= k < |ms| ==> DoubleStarAllowed(p, ms[k])
  }

  /** When the pattern has no `***`, the scan from `from` reports every
      `**` that starts at or after `from`: a match cannot swallow the first
      star of another `**` without the three stars forming a `***`. */
  lemma {:induction false} AllDoubleStarsReported(p: string, from: nat, s: int)
    requires from <= |p| && !HasTripleStar(p) && from <= s && DoubleStarAt(p, s)
    ensures s in DoubleStarStarts(p, from)
    decreases |p| - from
  {
    if p[from] == '*' && p[from + 1] == '*' {
      if s == from {
      } else if s == from + 1 {
        // p[from..from + 3] would be `***`
        assert false;
      } else {
        AllDoubleStarsReported(p, from + 2, s);
      }
    } else {
      AllDoubleStarsReported(p, from + 1, s);
    }
  }

  /** With no `***` in the pattern, the scan accepts exactly when every
      `**` stands where a `**` may. */
  lemma DoubleStarsValidIffAllAllowed(p: string)
    requires !HasTripleStar(p)
    ensures DoubleStarsValid(p) <==> forall s :: DoubleStarAt(p, s) ==> DoubleStarAllowed(p, s)
  {
    var ms := DoubleStarStarts(p, 0);
    if DoubleStarsValid(p) {
      forall s | DoubleStarAt(p, s)
        ensures DoubleStarAllowed(p, s)
      {
        AllDoubleStarsReported(p, 0, s);
        var k :| 0 <= k < |ms| && ms[k] == s;
      }
    }
  }

  /** The pattern and the anchoring flag once the leading and trailing
      markers are gone. */
  datatype Stage = Stage(pattern: string, anchored: bool)

  /** Lines 49-60: drop a leading `/`; drop a leading `**`, which also
      cancels anchoring; drop another leading `/`; drop a trailing `/`; turn
      a leading `\#` into `#`.  `None` where one of these steps indexes an
      empty pattern, or the `\#` test indexes past a lone backslash, and
      Python raises `IndexError`.  Each of the functions below does one
      step and hands the rest on. */
  function StripMarkers(p: string, anchored: bool): Option<Stage>
    requires |p| > 0
  {
    DropLeadingStars(if p[0] == '/' then p[1..] else p, anchored)
  }

  /** Lines 51-60. */
  function DropLeadingStars(p: string, anchored: bool): Option<Stage> {
    if |p| == 0 then None
    else
      var leadingStars := p[0] == '*' && |p| >= 2 && p[1] == '*';
      DropSecondSlash(if leadingStars then p[2..] else p, anchored && !leadingStars)
  }

  /** Lines 54-60. */
  function DropSecondSlash(p: string, anchored: bool): Option<Stage> {
    if |p| == 0 then None
    else DropTrailingSlash(if p[0] == '/' then p[1..] else p, anchored)
  }

  /** Lines 56-60. */
  function DropTrailingSlash(p: string, anchored: bool): Option<Stage> {
    if |p| == 0 then None
    else UnescapeHash(if p[|p| - 1] == '/' then p[..|p| - 1] else p, anchored)
  }

  lemma LeadingStarsStep(p: string, anchored: bool)
    requires |p| > 0
    ensures var leadingStars := p[0] == '*' && |p| >= 2 && p[1] == '*';
      DropLeadingStars(p, anchored)
        == DropSecondSlash(if leadingStars then p[2..] else p, anchored && !leadingStars)
  {
  }

  lemma SecondSlashStep(p: string, anchored: bool)
    requires |p| > 0
    ensures DropSecondSlash(p, anchored)
         == DropTrailingSlash(if p[0] == '/' then p[1..] else p, anchored)
  {
  }

  lemma TrailingSlashStep(p: string, anchored: bool)
    requires |p| > 0
    ensures DropTrailingSlash(p, anchored)
         == UnescapeHash(if p[|p| - 1] == '/' then p[..|p| - 1] else p, anchored)
  {
  }

  /** Lines 59-60. */
  function UnescapeHash(p: string, anchored: bool): Option<Stage> {
    if |p| == 0 || (p[0] == '\\' && |p| == 1) then None
    else Some(Stage(if p[0] == '\\' && p[1] == '#' then p[1..] else p, anchored))
  }

  lemma UnescapeHashStep(p: string, anchored: bool)
    requires |p| >= 2 || (|p| == 1 && p[0] != '\\')
    ensures UnescapeHash(p, anchored)
         == Some(Stage(if p[0] == '\\' && p[1] == '#' then p[1..] else p, anchored))
  {
  }

  /** The loop of lines 62-72 run on `p` with the flag `striptrailingspaces`
      equal to `strip`: it works leftwards from the last character while
      the character at an index above 1 is a space.  A space after a
      backslash is kept, the backslash is dropped and the flag is cleared;
      any other space is dropped while the flag is set and kept once it is
      cleared. */
  function TrailingSpaces(p: string, strip: bool): (r: string)
    ensures |r| <= |p|
    ensures |p| > 0 ==> |r| > 0 && r[0] == p[0]
    decreases |p|
  {
    if |p| > 2 && p[|p| - 1] == ' ' then
      if p[|p| - 2] == '\\' then TrailingSpaces(p[..|p| - 2], false) + " "
      else if strip then TrailingSpaces(p[..|p| - 1], true)
      else TrailingSpaces(p[..|p| - 1], false) + " "
    else p
  }

  /** `s == '/'`. */
  predicate LoneSlash(s: string) {
    |s| == 1 && s[0] == '/'
  }

  /** `'/' in pattern[:-1]`: a `/` somewhere before the last character. */
  predicate InnerSlash(q: string) {
    |q| > 0 && '/' in q[..|q| - 1]
  }

  /** What `rule_from_pattern(line)` returns, or that it raises. */
  function Compile(line: string): Outcome {
    if IsBlank(line) || line[0] == '#' then NoRule
    else if HasTripleStar(line) then NoRule
    else CompileUnbanged(Unbang(line))
  }

  /** The rest of `rule_from_pattern`, from line 32 on, for the pattern
      `q` left once a leading `!` is gone. */
  function CompileUnbanged(q: string): Outcome {
    if !DoubleStarsValid(q) || LoneSlash(RStrip(q)) then NoRule
    else if |q| == 0 then IndexError
    else
      match StripMarkers(q, InnerSlash(q))
      case None => IndexError
      case Some(st) =>
        var regex := Translate(TrailingSpaces(st.pattern, true));
        Rule(if st.anchored then "^" + regex else regex)
  }

  // The trailing-space loop, one step at a time.

  /** The loop invariant: what the loop has yet to look at, `p[..i + 1]`,
      run through the rest of the loop, followed by what it has finished,
      `p[i + 1..]`, is the loop's overall result `whole`. */
  ghost predicate SpacesLoopInv(p: string, i: int, strip: bool, whole: string) {
    && -1 <= i < |p|
    && (strip ==> i == |p| - 1)
    && TrailingSpaces(p[..i + 1], strip) + p[i + 1..] == whole
  }

  lemma SpacesLoopStart(p: string)
    ensures SpacesLoopInv(p, |p| - 1, true, TrailingSpaces(p, true))
  {
    assert p[..|p|] == p;
    assert p[|p|..] == [];
    assert TrailingSpaces(p, true) + [] == TrailingSpaces(p, true);
  }

  lemma SpacesLoopEnd(p: string, i: int, strip: bool, whole: string)
    requires SpacesLoopInv(p, i, strip, whole)
    requires !(i > 1 && p[i] == ' ')
    ensures p == whole
  {
    assert TrailingSpaces(p[..i + 1], strip) == p[..i + 1];
    assert p[..i + 1] + p[i + 1..] == p;
  }

  /** A space after a backslash: the backslash goes and the space stays. */
  lemma SpacesLoopEscaped(p: string, i: int, strip: bool, whole: string)
    requires SpacesLoopInv(p, i, strip, whole)
    requires i > 1 && p[i] == ' ' && p[i - 1] == '\\'
    ensures SpacesLoopInv(p[..i - 1] + p[i..], i - 2, false, whole)
  {
    var q := p[..i - 1] + p[i..];
    var head := TrailingSpaces(p[..i - 1], false);
    assert p[..i + 1][..i - 1] == p[..i - 1];
    assert TrailingSpaces(p[..i + 1], strip) == head + " ";
    assert q[..i - 1] == p[..i - 1];
    assert q[i - 1..] == " " + p[i + 1..];
    assert head + " " + p[i + 1..] == head + (" " + p[i + 1..]);
  }

  /** An unescaped space while the flag is set: it is cut off. */
  lemma SpacesLoopStripped(p: string, i: int, whole: string)
    requires SpacesLoopInv(p, i, true, whole)
    requires i > 1 && p[i] == ' ' && p[i - 1] != '\\'
    ensures SpacesLoopInv(p[..i], i - 1, true, whole)
  {
    assert p[..i + 1][..i] == p[..i];
    assert TrailingSpaces(p[..i + 1], true) == TrailingSpaces(p[..i], true);
    assert p[i + 1..] == [];
    assert p[..i][..i] == p[..i];
    assert p[..i][i..] == [];
  }

  /** An unescaped space once the flag is cleared: it stays. */
  lemma SpacesLoopKept(p: string, i: int, whole: string)
    requires SpacesLoopInv(p, i, false, whole)
    requires i > 1 && p[i] == ' ' && p[i - 1] != '\\'
    ensures SpacesLoopInv(p, i - 1, false, whole)
  {
    var head := TrailingSpaces(p[..i], false);
    assert p[..i + 1][..i] == p[..i];
    assert TrailingSpaces(p[..i + 1], false) == head + " ";
    assert p[i..] == " " + p[i + 1..];
    assert head + " " + p[i + 1..] == head + (" " + p[i + 1..]);
  }

  /** Lines 62-72: the backward loop over index `i` with the flag
      `striptrailingspaces`, splicing `pattern` as it goes. */
  method UnescapeTrailingSpaces(pattern0: string) returns (pattern: string)
    ensures pattern == TrailingSpaces(pattern0, true)
  {
    pattern := pattern0;
    var i := |pattern| - 1;
    var stripTrailingSpaces := true;
    SpacesLoopStart(pattern0);
    while i > 1 && pattern[i] == ' '
      invariant SpacesLoopInv(pattern, i, stripTrailingSpaces, TrailingSpaces(pattern0, true))
      decreases i
    {
      if pattern[i - 1] == '\\' {
        SpacesLoopEscaped(pattern, i, stripTrailingSpaces, TrailingSpaces(pattern0, true));
        pattern := pattern[..i - 1] + pattern[i..];
        i := i - 1;
        stripTrailingSpaces := false;
      } else if stripTrailingSpaces {
        SpacesLoopStripped(pattern, i, TrailingSpaces(pattern0, true));
        pattern := pattern[..i];
      } else {
        SpacesLoopKept(pattern, i, TrailingSpaces(pattern0, true));
      }
      i := i - 1;
    }
    SpacesLoopEnd(pattern, i, stripTrailingSpaces, TrailingSpaces(pattern0, true));
  }

  /** Lines 34-39: the loop over the `**` matches, false at the first one
      that stands where it may not. */
  method CheckDoubleStars(pattern: string) returns (valid: bool)
    ensures valid == DoubleStarsValid(pattern)
  {
    var matches := DoubleStarStarts(pattern, 0);
    for k := 0 to |matches|
      invariant forall j :: 0 <= j < k ==> DoubleStarAllowed(pattern, matches[j])
    {
      var s := matches[k];
      if s != 0 && s != |pattern| - 2 && (pattern[s - 1] != '/' || pattern[s + 2] != '/') {
        return false;
      }
    }
    return true;
  }

  /** Lines 49-60: the in-place rewrites of `pattern` and `anchored`;
      `None` where the source raises `IndexError`. */
  method StripPatternMarkers(pattern0: string, anchored0: bool) returns (stage: Option<Stage>)
    requires |pattern0| > 0
    ensures stage == StripMarkers(pattern0, anchored0)
  {
    var pattern, anchored := pattern0, anchored0;
    pattern := if pattern[0] == '/' then pattern[1..] else pattern;
    assert StripMarkers(pattern0, anchored0) == DropLeadingStars(pattern, anchored);
    if |pattern| == 0 {
      return None;
    }
    LeadingStarsStep(pattern, anchored);
    var leadingStars := pattern[0] == '*' && |pattern| >= 2 && pattern[1] == '*';
    pattern := if leadingStars then pattern[2..] else pattern;
    anchored := anchored && !leadingStars;
    assert StripMarkers(pattern0, anchored0) == DropSecondSlash(pattern, anchored);
    if |pattern| == 0 {
      return None;
    }
    SecondSlashStep(pattern, anchored);
    pattern := if pattern[0] == '/' then pattern[1..] else pattern;
    assert StripMarkers(pattern0, anchored0) == DropTrailingSlash(pattern, anchored);
    if |pattern| == 0 {
      return None;
    }
    TrailingSlashStep(pattern, anchored);
    pattern := if pattern[|pattern| - 1] == '/' then pattern[..|pattern| - 1] else pattern;
    assert StripMarkers(pattern0, anchored0) == UnescapeHash(pattern, anchored);
    if |pattern| == 0 || (pattern[0] == '\\' && |pattern| == 1) {
      return None;
    }
    UnescapeHashStep(pattern, anchored);
    pattern := if pattern[0] == '\\' && pattern[1] == '#' then pattern[1..] else pattern;
    return Some(Stage(pattern, anchored));
  }

  /** `rule_from_pattern(line)` with no `base_path`: the early returns, the
      scan over the `**` matches, the rewriting of `pattern`, the
      trailing-space loop and the translation, in the source's order. */
  method RuleFromPattern(line: string) returns (o: Outcome)
    ensures o == Compile(line)
  {
    var pattern := line;
    if IsBlank(pattern) || pattern[0] == '#' {
      return NoRule;
    }
    if HasTripleStar(pattern) {
      return NoRule;
    }
    var negation := pattern[0] == '!';
    if negation {
      pattern := pattern[1..];
    }
    o := RuleFromUnbanged(pattern);
  }

  /** Lines 32-78 of `rule_from_pattern`, once a leading `!` is gone. */
  method RuleFromUnbanged(pattern0: string) returns (o: Outcome)
    ensures o == CompileUnbanged(pattern0)
  {
    var pattern := pattern0;
    var valid := CheckDoubleStars(pattern);
    if !valid {
      return NoRule;
    }
    if LoneSlash(RStrip(pattern)) {
      return NoRule;
    }
    if |pattern| == 0 {
      return IndexError;
    }
    var directoryOnly := pattern[|pattern| - 1] == '/';
    var anchored := '/' in pattern[..|pattern| - 1];
    var stage := StripPatternMarkers(pattern, anchored);
    if stage.None? {
      return IndexError;
    }
    pattern, anchored := stage.value.pattern, stage.value.anchored;
    pattern := UnescapeTrailingSpaces(pattern);
    var regex := FnmatchPathnameToRegex(pattern, directoryOnly);
    if anchored {
      regex := "^" + regex;
    }
    return Rule(regex);
  }

  /** A `!` in front adds no run of three stars. */
  lemma TripleStarOfBang(p: string)
    ensures HasTripleStar("!" + p) <==> HasTripleStar(p)
  {
    var line := "!" + p;
    if HasTripleStar(line) {
      var s :| 0 <= s < |line| - 2 && line[s] == '*' && line[s + 1] == '*' && line[s + 2] == '*';
      assert p[s - 1] == '*' && p[s] == '*' && p[s + 1] == '*';
    }
    if HasTripleStar(p) {
      var s :| 0 <= s < |p| - 2 && p[s] == '*' && p[s + 1] == '*' && p[s + 2] == '*';
      assert line[s + 1] == '*' && line[s + 2] == '*' && line[s + 3] == '*';
    }
  }

  /** A line that gets past the early returns, and whose pattern without
      its `!` has a `**` standing where none may, gives no rule, wherever
      that `**` is. */
  lemma MisplacedDoubleStarRejected(line: string, s: int)
    requires |line| > 0 && !IsBlank(line) && line[0] != '#' && !HasTripleStar(line)
    requires DoubleStarAt(Unbang(line), s) && !DoubleStarAllowed(Unbang(line), s)
    ensures Compile(line) == NoRule
  {
    var q := Unbang(line);
    if line[0] == '!' {
      assert line == "!" + q;
      TripleStarOfBang(q);
    }
    AllDoubleStarsReported(q, 0, s);
  }

  lemma NegationIgnored(p: string)
    requires !IsBlank(p) && p[0] != '#' && p[0] != '!'
    ensures Compile("!" + p) == Compile(p)
  {
    var line := "!" + p;
    assert !IsSpace(line[0]);
    assert Unbang(line) == p;
    TripleStarOfBang(p);
  }


  /** No `^` anywhere in `p`. */
  predicate NoCaret(p: string) {
    forall k :: 0 <= k < |p| ==> p[k] != '^'
  }

  /** The pattern left once the markers of `q` are stripped starts with a
      `^` of its own. */
  predicate StripsToCaret(q: string) {
    |q| > 0 &&
    var st := StripMarkers(q, InnerSlash(q));
    st.Some? && |st.value.pattern| > 0 && st.value.pattern[0] == '^'
  }

  /** A `**` at the start of `q`, possibly after one `/`: it cancels
      anchoring. */
  predicate LeadingDoubleStar(q: string) {
    var q1 := if |q| > 0 && q[0] == '/' then q[1..] else q;
    |q1| >= 2 && q1[0] == '*' && q1[1] == '*'
  }

  lemma NoCaretSuffix(p: string, i: nat)
    requires i <= |p| && NoCaret(p)
    ensures NoCaret(p[i..])
  {
  }

  /** Each step after the first `/` only cuts characters off the ends, and
      the `\#` step leaves a `#` in front: no `^` comes to the head. */
  lemma NoCaretStages(p: string, anchored: bool)
    requires |p| > 0 && NoCaret(p) && DropLeadingStars(p, anchored).Some?
    ensures |DropLeadingStars(p, anchored).value.pattern| > 0
    ensures DropLeadingStars(p, anchored).value.pattern[0] != '^'
  {
    var lead := p[0] == '*' && |p| >= 2 && p[1] == '*';
    var p2 := if lead then p[2..] else p;
    LeadingStarsStep(p, anchored);
    assert NoCaret(p2) && |p2| > 0;
    var p3 := if p2[0] == '/' then p2[1..] else p2;
    SecondSlashStep(p2, anchored && !lead);
    assert NoCaret(p3) && |p3| > 0;
    var p4 := if p3[|p3| - 1] == '/' then p3[..|p3| - 1] else p3;
    TrailingSlashStep(p3, anchored && !lead);
    assert NoCaret(p4);
    assert DropLeadingStars(p, anchored) == UnescapeHash(p4, anchored && !lead);
  }

  /** The stripped pattern is not empty, starts with a character of `p`,
      and is anchored when `p` was, unless it began with `**`, with or
      without a `/` in front. */
  lemma StripMarkersFacts(p: string, anchored: bool)
    requires |p| > 0 && StripMarkers(p, anchored).Some?
    ensures StripMarkers(p, anchored).value.anchored == (anchored && !LeadingDoubleStar(p))
    ensures |StripMarkers(p, anchored).value.pattern| > 0
    ensures NoCaret(p) ==> StripMarkers(p, anchored).value.pattern[0] != '^'
  {
    if NoCaret(p) {
      var q := if p[0] == '/' then p[1..] else p;
      NoCaretSuffix(p, |p| - |q|);
      NoCaretStages(q, anchored);
    }
  }

  /** A line with no `^` anywhere never strips to a pattern starting with
      one. */
  lemma NoCaretNeverStripsToCaret(line: string)
    requires |line| > 0 && NoCaret(line)
    ensures !StripsToCaret(Unbang(line))
  {
    var q := Unbang(line);
    assert NoCaret(q);
    if |q| > 0 && StripMarkers(q, InnerSlash(q)).Some? {
      StripMarkersFacts(q, InnerSlash(q));
    }
  }

  /** Anchoring: unless the pattern left after its markers are stripped
      starts with `^` itself, the regex starts with `^` exactly when, after
      a leading `!` is dropped, a `/` stands before the last character and
      the pattern does not begin with `**`, with or without a `/` in front. */
  lemma AnchoredIffUnlessStripsToCaret(line: string)
    requires |line| > 0 && Compile(line).Rule?
    requires !StripsToCaret(Unbang(line))
    ensures var r := Compile(line).regex;
      (|r| > 0 && r[0] == '^') <==> InnerSlash(Unbang(line)) && !LeadingDoubleStar(Unbang(line))
  {
    var q := Unbang(line);
    StripMarkersFacts(q, InnerSlash(q));
    var st := StripMarkers(q, InnerSlash(q)).value;
    TranslateHead(TrailingSpaces(st.pattern, true));
  }

  /** The same for a line with no `^` anywhere, which always qualifies. */
  lemma AnchoredIffInnerSlash(line: string)
    requires |line| > 0 && Compile(line).Rule? && NoCaret(line)
    ensures var r := Compile(line).regex;
      (|r| > 0 && r[0] == '^') <==> InnerSlash(Unbang(line)) && !LeadingDoubleStar(Unbang(line))
  {
    NoCaretNeverStripsToCaret(line);
    AnchoredIffUnlessStripsToCaret(line);
  }

  /** Characters that no stage of the function treats specially. */
  predicate Ordinary(c: char) {
    !Special(c) && c != '\\' && !IsSpace(c)
  }

  /** A plain name: ordinary characters, not starting with `!` or `#`. */
  predicate PlainName(s: string) {
    |s| > 0 && s[0] != '!' && s[0] != '#' && forall k :: 0 <= k < |s| ==> Ordinary(s[k])
  }

  /** No `*` and no `/` anywhere in `p`. */
  predicate NoStarOrSlash(p: string) {
    forall k :: 0 <= k < |p| ==> p[k] != '*' && p[k] != '/'
  }

  lemma NoStarOrSlashAppend(a: string, b: string)
    requires NoStarOrSlash(a) && NoStarOrSlash(b)
    ensures NoStarOrSlash(a + b)
  {
    forall k | |a| <= k < |a + b|
      ensures (a + b)[k] == b[k - |a|]
    {
    }
  }

  /** Without a `*` there is no `**` to object to. */
  lemma NoStarsNoDoubleStars(p: string)
    requires NoStarOrSlash(p)
    ensures !HasTripleStar(p) && DoubleStarsValid(p)
  {
  }

  /** A pattern that is not blank and does not start with `/` does not
      strip to `/`. */
  lemma RStripNotSlash(p: string)
    requires !IsBlank(p) && p[0] != '/'
    ensures !LoneSlash(RStrip(p))
  {
  }

  /** Without a `/`, a `*` or a leading backslash there is nothing to strip. */
  lemma QuietMarkers(p: string)
    requires |p| > 0 && p[0] != '\\' && NoStarOrSlash(p)
    ensures !InnerSlash(p)
    ensures StripMarkers(p, false) == Some(Stage(p, false))
  {
    assert p[0] != '/' && p[0] != '*' && p[|p| - 1] != '/';
  }

  /** A line with no `*` and no `/` that does not start with `!`, `#` or a
      backslash passes every check untouched and is only put through the
      trailing-space loop and the translation. */
  lemma QuietLine(line: string)
    requires !IsBlank(line) && line[0] != '!' && line[0] != '#' && line[0] != '\\'
    requires NoStarOrSlash(line)
    ensures Compile(line) == Rule(Translate(TrailingSpaces(line, true)))
  {
    NoStarsNoDoubleStars(line);
    RStripNotSlash(line);
    QuietMarkers(line);
  }

  /** A plain name is matched by itself, unanchored. */
  lemma PlainNameIsItself(name: string)
    requires PlainName(name)
    ensures Compile(name) == Rule(name)
  {
    QuietLine(name);
    PlainTextCopied(name);
  }

  /** The counterexample to reading anchoring off the first character of
      the regex: a pattern beginning with `^` has no `/` before its last
      character, yet its regex starts with `^`, since ordinary characters
      are copied unescaped. */
  lemma CaretLooksAnchored()
    ensures Compile("^a") == Rule("^a") && !InnerSlash("^a")
  {
    assert Ordinary("^a"[0]) && Ordinary("^a"[1]);
    PlainNameIsItself("^a");
  }

  /** A plain name followed by `/` is matched by the name alone: marking a
      pattern as a directory makes no difference to the regex. */
  lemma DirectoryNameIsItself(name: string)
    requires PlainName(name)
    ensures Compile(name + "/") == Rule(name)
  {
    var line := name + "/";
    forall k | 0 <= k < |line|
      ensures line[k] != '*' && !IsSpace(line[k]) && (k < |name| ==> line[k] != '/')
    {
      if k < |name| {
        assert line[k] == name[k];
      }
    }
    assert line[..|line| - 1] == name;
    assert RStrip(line) == line;
    assert !InnerSlash(line);
    assert StripMarkers(line, false) == Some(Stage(name, false));
    PlainTextCopied(name);
  }

  /** A line that is not blank, not a comment and has no `***` is compiled
      from its unbanged form. */
  lemma PastEarlyReturns(line: string)
    requires !IsBlank(line) && line[0] != '#' && !HasTripleStar(line)
    ensures Compile(line) == CompileUnbanged(Unbang(line))
  {
  }

  /** An unbanged pattern that gets past the checks with stage `st` compiles
      to the translation of `st`'s pattern, anchored as `st` says. */
  lemma StagedPattern(q: string, st: Stage)
    requires |q| > 0 && DoubleStarsValid(q) && !LoneSlash(RStrip(q))
    requires StripMarkers(q, InnerSlash(q)) == Some(st)
    ensures var regex := Translate(TrailingSpaces(st.pattern, true));
      CompileUnbanged(q) == Rule(if st.anchored then "^" + regex else regex)
  {
  }

  /** A line that gets past the early returns with stage `st` compiles to
      the translation of `st`'s pattern, anchored as `st` says. */
  lemma StagedLine(line: string, st: Stage)
    requires !IsBlank(line) && line[0] != '#' && line[0] != '!' && !HasTripleStar(line)
    requires DoubleStarsValid(line) && !LoneSlash(RStrip(line))
    requires StripMarkers(line, InnerSlash(line)) == Some(st)
    ensures var regex := Translate(TrailingSpaces(st.pattern, true));
      Compile(line) == Rule(if st.anchored then "^" + regex else regex)
  {
    PastEarlyReturns(line);
    StagedPattern(line, st);
  }

  /** A plain name after a leading `/` is matched from the start: the regex
      is the name with `^` in front. */
  lemma RootedNameIsAnchored(name: string)
    requires PlainName(name)
    ensures Compile("/" + name) == Rule("^" + name)
  {
    var line := "/" + name;
    assert line[1..] == name;
    forall k | 1 <= k < |line|
      ensures line[k] == name[k - 1]
    {
    }
    assert line[..|line| - 1][0] == '/';
    assert InnerSlash(line);
    assert RStrip(line) == line;
    assert StripMarkers(line, true) == Some(Stage(name, true));
    StagedLine(line, Stage(name, true));
    PlainTextCopied(name);
  }

  /** Only a `#` in the very first position makes a comment: a line
      starting with a space and then `#` is a pattern like any other. */
  lemma IndentedHashIsNotComment(rest: string)
    requires forall k :: 0 <= k < |rest| ==> Ordinary(rest[k])
    ensures Compile(" #" + rest) == Rule(" #" + rest)
  {
    var line := " #" + rest;
    forall k | 2 <= k < |line|
      ensures line[k] == rest[k - 2]
    {
    }
    assert !IsSpace(line[1]) && !IsSpace(line[|line| - 1]);
    QuietLine(line);
    PlainTextCopied(line);
  }

  /** A leading backslash then `#` only loses the backslash to the
      marker stage. */
  lemma EscapedHashMarkers(p: string)
    requires |p| >= 2 && p[0] == '\\' && p[1] == '#' && NoStarOrSlash(p)
    ensures !InnerSlash(p)
    ensures StripMarkers(p, false) == Some(Stage(p[1..], false))
  {
    assert p[|p| - 1] != '/';
  }

  lemma DropFirst(c: char, s: string)
    ensures ([c] + s)[1..] == s
  {
  }

  /** A leading `\#` stands for a literal `#`: the backslash is dropped. */
  lemma EscapedHashIsLiteral(rest: string)
    requires forall k :: 0 <= k < |rest| ==> Ordinary(rest[k])
    ensures Compile("\\#" + rest) == Rule("#" + rest)
  {
    var core := "#" + rest;
    var line := "\\#" + rest;
    assert line == ['\\'] + core;
    DropFirst('\\', core);
    assert NoStarOrSlash(rest);
    NoStarOrSlashAppend("\\#", rest);
    assert !IsSpace(line[1]);
    NoStarsNoDoubleStars(line);
    RStripNotSlash(line);
    EscapedHashMarkers(line);
    StagedLine(line, Stage(core, false));
    assert !IsSpace(core[|core| - 1]);
    assert TrailingSpaces(core, true) == core;
    PlainTextCopied(core);
  }

  /** `k` spaces. */
  function Spaces(k: nat): (s: string)
    ensures |s| == k && forall i :: 0 <= i < k ==> s[i] == ' '
  {
    if k == 0 then [] else Spaces(k - 1) + " "
  }

  lemma DropLastSpace(x: string, k: nat)
    requires k > 0
    ensures var p := x + Spaces(k); p[|p| - 1] == ' ' && p[..|p| - 1] == x + Spaces(k - 1)
  {
  }

  /** Spaces after a last character other than a backslash, at indices
      from 2 on, are all cut off while the flag is set. */
  lemma {:induction false} UnescapedSpacesDropped(x: string, k: nat)
    requires |x| >= 2 && x[|x| - 1] != '\\'
    ensures TrailingSpaces(x + Spaces(k), true) == TrailingSpaces(x, true)
    decreases k
  {
    if k > 0 {
      var p := x + Spaces(k);
      DropLastSpace(x, k);
      assert p[|p| - 2] != '\\';
      UnescapedSpacesDropped(x, k - 1);
    } else {
      assert x + Spaces(0) == x;
    }
  }

  /** Once the flag is cleared, unescaped spaces are kept. */
  lemma {:induction false} SpacesKeptAfterEscape(x: string, k: nat)
    requires |x| >= 2 && x[|x| - 1] != '\\'
    ensures TrailingSpaces(x + Spaces(k), false) == TrailingSpaces(x, false) + Spaces(k)
    decreases k
  {
    if k == 0 {
      assert x + Spaces(0) == x;
      assert TrailingSpaces(x, false) + Spaces(0) == TrailingSpaces(x, false);
    } else {
      var p := x + Spaces(k);
      DropLastSpace(x, k);
      assert p[|p| - 2] != '\\';
      SpacesKeptAfterEscape(x, k - 1);
      Reassociate(TrailingSpaces(x, false), Spaces(k - 1), " ",
        TrailingSpaces(x, false) + Spaces(k), TrailingSpaces(x + Spaces(k - 1), false));
    }
  }

  /** A backslash-escaped space after `s` is kept without its backslash,
      the unescaped spaces after it are cut off, and what comes before it
      is looked at with the flag cleared. */
  lemma EscapedSpace(s: string, k: nat)
    requires |s| >= 1
    ensures TrailingSpaces(s + "\\ " + Spaces(k), true) == TrailingSpaces(s, false) + " "
  {
    var x := s + "\\ ";
    UnescapedSpacesDropped(x, k);
    assert x[..|x| - 2] == s;
  }

  /** Trailing spaces after a plain name of two or more characters are
      ignored. */
  lemma TrailingSpacesIgnored(name: string, k: nat)
    requires PlainName(name) && |name| >= 2
    ensures Compile(name + Spaces(k)) == Rule(name)
  {
    var line := name + Spaces(k);
    forall i | 0 <= i < |line|
      ensures line[i] != '*' && line[i] != '/'
    {
      if i < |name| {
        assert line[i] == name[i];
      }
    }
    assert line[0] == name[0] && !IsSpace(line[0]);
    QuietLine(line);
    UnescapedSpacesDropped(name, k);
    PlainTextCopied(name);
  }

  /** The loop never looks at index 1: the space in a two-character
      pattern stays. */
  lemma ShortPatternKeepsTrailingSpace(c: char)
    requires Ordinary(c) && c != '!' && c != '#'
    ensures Compile([c, ' ']) == Rule([c, ' '])
  {
    QuietLine([c, ' ']);
    PlainTextCopied([c, ' ']);
  }

  /** A plain name with a space after it translates to itself. */
  lemma NameAndSpaceCopied(name: string)
    requires PlainName(name)
    ensures Translate(name + " ") == name + " "
  {
    var r := name + " ";
    forall i | 0 <= i < |r|
      ensures !Special(r[i])
    {
      if i < |name| {
        assert r[i] == name[i];
      }
    }
    PlainTextCopied(r);
  }

  /** A backslash-escaped space after a plain name is kept, without the
      backslash, and the spaces after it are dropped. */
  lemma EscapedTrailingSpaceKept(name: string, k: nat)
    requires PlainName(name)
    ensures Compile(name + "\\ " + Spaces(k)) == Rule(name + " ")
  {
    var line := name + "\\ " + Spaces(k);
    assert NoStarOrSlash(name);
    NoStarOrSlashAppend(name, "\\ ");
    NoStarOrSlashAppend(name + "\\ ", Spaces(k));
    assert line[0] == name[0] && !IsSpace(line[0]);
    QuietLine(line);
    EscapedSpace(name, k);
    assert TrailingSpaces(name, false) == name;
    NameAndSpaceCopied(name);
  }

  /** Lines that make `rule_from_pattern` raise `IndexError`: each is
      reduced to nothing, or to a lone backslash, before it is indexed. */
  lemma LoneBangCrashes()
    ensures Compile("!") == IndexError
  {
    assert !IsSpace('!');
    assert Unbang("!") == [];
  }

  lemma LoneBackslashCrashes()
    ensures Compile("\\") == IndexError
  {
    assert !IsSpace('\\');
    assert RStrip("\\") == "\\";
    assert StripMarkers("\\", false) == None;
  }

  lemma DoubleStarsAloneCrash()
    ensures Compile("**") == IndexError
  {
    assert !IsSpace('*');
    assert DoubleStarStarts("**", 0) == [0];
    assert "**"[2..] == [];
  }

  lemma RootedDoubleStarsCrash()
    ensures Compile("/**") == IndexError
  {
    assert !IsSpace('/');
    assert DoubleStarStarts("/**", 0) == [1];
    assert "/**"[1..] == "**" && "**"[2..] == [];
  }

  lemma DoubleStarsDirectoryCrash()
    ensures Compile("**/") == IndexError
  {
    assert !IsSpace('*');
    assert DoubleStarStarts("**/", 0) == [0];
    assert "**/"[2..] == "/" && "/"[1..] == [];
  }


  lemma SlashesAloneCrash()
    ensures Compile("//") == IndexError
  {
    assert !IsSpace('/');
    assert DoubleStarStarts("//", 0) == [] && RStrip("//") == "//";
    assert "//"[1..] == "/" && "/"[1..] == [];
  }

  lemma ThreeSlashesCrash()
    ensures Compile("///") == IndexError
  {
    assert !IsSpace('/');
    assert DoubleStarStarts("///", 0) == [] && RStrip("///") == "///";
    assert "///"[1..] == "//" && "//"[..1] == "/" && "/"[1..] == [];
  }

}
