/** What `main` (workonsh/main.py:95-158) decides once the options are
    parsed: the list of patterns the watcher excludes, the rsync runs that
    compare and reconcile the two folders, and whether the session ends
    there or goes on to watch.

    The outside world enters as inputs: the lines of the filter file, the
    number of lines the first dry run printed, and the two answers typed
    at the prompts.  `Reconcile` is the prompt logic of lines 109-152;
    `WatchExcludes` and its loop `CollectExcludes` build the exclude list
    of lines 97-107; `Session` and `RunSession` put the pieces together in
    the order `main` runs them. */
module Session {
  import opened PyText
  import IgnoreRule
  import opened Commands

  /** One call of `run_rsync` (lines 111, 138 and 146): from where, to
      where, with which excludes and filter file, and whether it only
      reports what it would do. */
  datatype Run = Run(from: string, to: string, exclude: seq<string>, filter: Option<string>,
                     dryRun: bool)

  /** The argument list `run_rsync` hands to rsync for a run. */
  function Command(r: Run): seq<string> {
    RsyncCommand(r.from, r.to, r.exclude, r.filter, r.dryRun)
  }

  /** The rsync runs of lines 111-148, and whether `main` goes on to watch
      (`watch`) or leaves through `exit(0)` (line 152). */
  datatype Decision = Decision(runs: seq<Run>, watch: bool)

  /** Lines 109-152.  `srcn` and `destn` are the project folders inside
      `src` and `dest`; `count` is how many lines the first dry run printed;
      the two answers are what `input()` returned at the prompts, and are
      not read when `yes` is set. */
  function Reconcile(srcn: string, destn: string, src: string, dest: string,
                     exclude: seq<string>, filter: Option<string>, count: nat,
                     yes: bool, choiceAnswer: string, proceedAnswer: string): Decision
  {
    var compare := Run(srcn, dest, exclude, filter, true);
    if count == 0 then Decision([compare], true)
    else
      var choice := if yes then "s" else Lower(choiceAnswer);
      if choice != "s" && choice != "d" then Decision([compare], false)
      else
        var from := if choice == "s" then srcn else destn;
        var to := if choice == "s" then dest else src;
        var proceed := if yes then "y" else Lower(proceedAnswer);
        var dryRun := Run(from, to, exclude, filter, true);
        if proceed == "y" then Decision([compare, dryRun, Run(from, to, exclude, filter, false)], true)
        else Decision([compare, dryRun], false)
  }

  /** Every session starts by comparing the project folder in `src` with
      `dest` in a dry run, and makes at most three rsync runs. */
  lemma ComparisonComesFirst(srcn: string, destn: string, src: string, dest: string,
                             exclude: seq<string>, filter: Option<string>, count: nat,
                             yes: bool, choiceAnswer: string, proceedAnswer: string)
    ensures var d := Reconcile(srcn, destn, src, dest, exclude, filter, count, yes, choiceAnswer, proceedAnswer);
      1 <= |d.runs| <= 3 && d.runs[0] == Run(srcn, dest, exclude, filter, true)
  {
  }

  /** Every run gets the excludes and the filter file it is given: the
      prompts choose only the folders and whether the run is dry. */
  lemma RunsUseLiteralExcludes(srcn: string, destn: string, src: string, dest: string,
                               exclude: seq<string>, filter: Option<string>, count: nat,
                               yes: bool, choiceAnswer: string, proceedAnswer: string)
    ensures var d := Reconcile(srcn, destn, src, dest, exclude, filter, count, yes, choiceAnswer, proceedAnswer);
      forall k :: 0 <= k < |d.runs| ==> d.runs[k].exclude == exclude && d.runs[k].filter == filter
  {
  }

  /** When the dry run printed nothing, nothing is asked, nothing else
      runs, and the session goes straight on to watching. */
  lemma InSyncGoesStraightToWatch(srcn: string, destn: string, src: string, dest: string,
                                  exclude: seq<string>, filter: Option<string>,
                                  yes: bool, choiceAnswer: string, proceedAnswer: string)
    ensures Reconcile(srcn, destn, src, dest, exclude, filter, 0, yes, choiceAnswer, proceedAnswer)
         == Decision([Run(srcn, dest, exclude, filter, true)], true)
  {
  }

  /** With `--yes` the answers are never consulted: the session syncs the
      source into the destination, after a dry run of the same pair. */
  lemma YesSyncsSourceToDest(srcn: string, destn: string, src: string, dest: string,
                             exclude: seq<string>, filter: Option<string>, count: nat,
                             choiceAnswer: string, proceedAnswer: string)
    requires count > 0
    ensures Reconcile(srcn, destn, src, dest, exclude, filter, count, true, choiceAnswer, proceedAnswer)
         == Decision([Run(srcn, dest, exclude, filter, true), Run(srcn, dest, exclude, filter, true),
                      Run(srcn, dest, exclude, filter, false)], true)
  {
  }

  /** Answers are compared in lower case: an answer and its lower-case
      form lead to the same session. */
  lemma AnswersIgnoreCase(srcn: string, destn: string, src: string, dest: string,
                          exclude: seq<string>, filter: Option<string>, count: nat,
                          yes: bool, choiceAnswer: string, proceedAnswer: string)
    ensures Reconcile(srcn, destn, src, dest, exclude, filter, count, yes, choiceAnswer, proceedAnswer)
         == Reconcile(srcn, destn, src, dest, exclude, filter, count, yes, Lower(choiceAnswer), Lower(proceedAnswer))
  {
    LowerIdempotent(choiceAnswer);
    LowerIdempotent(proceedAnswer);
  }

  /** A real sync is the last run, comes right after a dry run of the same
      pair of folders, and happens only on a `y` (or `--yes`). */
  lemma RealSyncOnlyAfterDryRun(srcn: string, destn: string, src: string, dest: string,
                                exclude: seq<string>, filter: Option<string>, count: nat,
                                yes: bool, choiceAnswer: string, proceedAnswer: string, k: nat)
    requires var d := Reconcile(srcn, destn, src, dest, exclude, filter, count, yes, choiceAnswer, proceedAnswer);
      k < |d.runs| && !d.runs[k].dryRun
    ensures var d := Reconcile(srcn, destn, src, dest, exclude, filter, count, yes, choiceAnswer, proceedAnswer);
      && k == 2 && |d.runs| == 3
      && d.runs[1] == Run(d.runs[2].from, d.runs[2].to, exclude, filter, true)
      && (yes || Lower(proceedAnswer) == "y")
      && d.watch
  {
  }

  /** `main` leaves through `exit(0)` exactly when the folders differed and
      no real sync ran. */
  lemma ExitIffNotReconciled(srcn: string, destn: string, src: string, dest: string,
                             exclude: seq<string>, filter: Option<string>, count: nat,
                             yes: bool, choiceAnswer: string, proceedAnswer: string)
    ensures var d := Reconcile(srcn, destn, src, dest, exclude, filter, count, yes, choiceAnswer, proceedAnswer);
      !d.watch <==> count > 0 && forall k :: 0 <= k < |d.runs| ==> d.runs[k].dryRun
  {
    var d := Reconcile(srcn, destn, src, dest, exclude, filter, count, yes, choiceAnswer, proceedAnswer);
    if d.watch && count > 0 {
      assert !d.runs[2].dryRun;
    }
  }

  /** Without `--yes`, the typed answers decide, in either case: `s` syncs
      the source project folder into `dest`, `d` the destination project
      folder into `src`, and only `y` confirms; anything else ends the
      session with no real sync. */
  lemma AnswersDecide(srcn: string, destn: string, src: string, dest: string,
                      exclude: seq<string>, filter: Option<string>, count: nat,
                      choiceAnswer: string, proceedAnswer: string)
    requires count > 0
    ensures var d := Reconcile(srcn, destn, src, dest, exclude, filter, count, false, choiceAnswer, proceedAnswer);
      && (d.watch <==> (choiceAnswer in ["s", "S", "d", "D"]) && (proceedAnswer in ["y", "Y"]))
      && (d.watch && choiceAnswer in ["s", "S"] ==> d.runs[2] == Run(srcn, dest, exclude, filter, false))
      && (d.watch && choiceAnswer in ["d", "D"] ==> d.runs[2] == Run(destn, src, exclude, filter, false))
  {
    LowerIsLetter(choiceAnswer, 's');
    LowerIsLetter(choiceAnswer, 'd');
    LowerIsLetter(proceedAnswer, 'y');
  }

  /** What `rule_from_pattern` gives for each line of the filter file once
      `rstrip('\n')` has taken off its line break (lines 104-105). */
  function Outcomes(lines: seq<string>): (r: seq<IgnoreRule.Outcome>)
    ensures |r| == |lines|
  {
    seq(|lines|, i requires 0 <= i < |lines| => IgnoreRule.Compile(RStripNewlines(lines[i])))
  }

  /** The regular expressions the filter file adds, in file order (lines
      103-107), or `None` when one of its lines makes `rule_from_pattern`
      raise `IndexError`, which ends `main` before any rsync runs. */
  function FilterRules(outcomes: seq<IgnoreRule.Outcome>): (r: Option<seq<string>>)
    ensures r.Some? ==> |r.value| <= |outcomes|
  {
    if |outcomes| == 0 then Some([])
    else
      match FilterRules(outcomes[..|outcomes| - 1])
      case None => None
      case Some(rules) =>
        match outcomes[|outcomes| - 1]
        case IndexError => None
        case NoRule => Some(rules)
        case Rule(regex) => Some(rules + [regex])
  }

  /** The patterns of a file split in two are those of the first part
      followed by those of the second: file order is kept. */
  lemma {:induction false} FilterRulesAppend(a: seq<IgnoreRule.Outcome>, b: seq<IgnoreRule.Outcome>)
    ensures FilterRules(a + b)
         == if FilterRules(a).Some? && FilterRules(b).Some?
            then Some(FilterRules(a).value + FilterRules(b).value) else None
  {
    if |b| == 0 {
      assert a + b == a;
      if FilterRules(a).Some? {
        assert FilterRules(a).value + [] == FilterRules(a).value;
      }
    } else {
      var b0 := b[..|b| - 1];
      FilterRulesAppend(a, b0);
      assert (a + b)[..|a + b| - 1] == a + b0;
      assert (a + b)[|a + b| - 1] == b[|b| - 1];
      if FilterRules(a).Some? && FilterRules(b0).Some? {
        var ra, rb := FilterRules(a).value, FilterRules(b0).value;
        if b[|b| - 1].Rule? {
          assert ra + rb + [b[|b| - 1].regex] == ra + (rb + [b[|b| - 1].regex]);
        }
      }
    }
  }

  /** The file is refused exactly when one of its lines makes
      `rule_from_pattern` raise `IndexError`. */
  lemma {:induction false} FilterCrashIff(outcomes: seq<IgnoreRule.Outcome>)
    ensures FilterRules(outcomes).None? <==> exists i :: 0 <= i < |outcomes| && outcomes[i].IndexError?
  {
    if |outcomes| > 0 {
      var init := outcomes[..|outcomes| - 1];
      FilterCrashIff(init);
      if exists i :: 0 <= i < |init| && init[i].IndexError? {
        var i :| 0 <= i < |init| && init[i].IndexError?;
        assert outcomes[i] == init[i];
      }
      if exists i :: 0 <= i < |outcomes| && outcomes[i].IndexError? {
        var i :| 0 <= i < |outcomes| && outcomes[i].IndexError?;
        if i < |init| {
          assert init[i] == outcomes[i];
        }
      }
    }
  }

  /** Every pattern the filter file adds is what one of its lines
      compiled to. */
  lemma {:induction false} FilterRulesFromLines(outcomes: seq<IgnoreRule.Outcome>, x: string)
    requires FilterRules(outcomes).Some? && x in FilterRules(outcomes).value
    ensures exists i :: 0 <= i < |outcomes| && outcomes[i] == IgnoreRule.Rule(x)
  {
    var init := outcomes[..|outcomes| - 1];
    var rules := FilterRules(init).value;
    if x in rules {
      FilterRulesFromLines(init, x);
      var i :| 0 <= i < |init| && init[i] == IgnoreRule.Rule(x);
      assert outcomes[i] == init[i];
    } else {
      assert outcomes[|outcomes| - 1] == IgnoreRule.Rule(x);
    }
  }

  /** Lines 97-107: the literal excludes, then, when a filter file is
      given, the patterns its lines compile to. */
  function WatchExcludes(exclude: seq<string>, filter: Option<string>, lines: seq<string>): Option<seq<string>> {
    if filter.None? then Some(exclude)
    else
      match FilterRules(Outcomes(lines))
      case None => None
      case Some(rules) => Some(exclude + rules)
  }

  /** A line that crashes makes every longer file crash too. */
  lemma FilterCrashPersists(outcomes: seq<IgnoreRule.Outcome>, k: nat)
    requires k <= |outcomes| && FilterRules(outcomes[..k]).None?
    ensures FilterRules(outcomes).None?
  {
    FilterRulesAppend(outcomes[..k], outcomes[k..]);
    assert outcomes[..k] + outcomes[k..] == outcomes;
  }

  /** The pattern an outcome adds to the list: its regex, if it has one. */
  function RuleOf(o: IgnoreRule.Outcome): seq<string> {
    if o.Rule? then [o.regex] else []
  }

  /** One turn of the loop of lines 103-107, seen through `FilterRules`. */
  lemma FilterStep(outcomes: seq<IgnoreRule.Outcome>, k: nat, rules: seq<string>)
    requires k < |outcomes| && FilterRules(outcomes[..k]) == Some(rules)
    ensures outcomes[k].IndexError? ==> FilterRules(outcomes[..k + 1]).None?
    ensures !outcomes[k].IndexError? ==> FilterRules(outcomes[..k + 1]) == Some(rules + RuleOf(outcomes[k]))
  {
    assert outcomes[..k + 1][..k] == outcomes[..k];
    if outcomes[k].NoRule? {
      assert rules + [] == rules;
    }
  }

  /** Lines 104-107 for one line of the filter file: compile it, and add
      its regex to `patterns` when there is one. */
  method AddRule(patterns0: seq<string>, line: string)
    returns (outcome: IgnoreRule.Outcome, patterns: seq<string>)
    ensures outcome == IgnoreRule.Compile(RStripNewlines(line))
    ensures patterns == patterns0 + RuleOf(outcome)
  {
    outcome := IgnoreRule.RuleFromPattern(RStripNewlines(line));
    patterns := patterns0;
    if outcome.Rule? {
      patterns := patterns + [outcome.regex];
    }
  }

  /** Lines 97-107: `exclude_with_filter` is a copy of the excludes that
      grows by one pattern for every filter line that yields one. */
  method CollectExcludes(exclude: seq<string>, filter: Option<string>, lines: seq<string>)
    returns (excludeWithFilter: Option<seq<string>>)
    ensures excludeWithFilter == WatchExcludes(exclude, filter, lines)
  {
    var patterns := exclude;
    if filter.Some? {
      ghost var outcomes := Outcomes(lines);
      ghost var rules: seq<string> := [];
      for k := 0 to |lines|
        invariant FilterRules(outcomes[..k]) == Some(rules)
        invariant patterns == exclude + rules
      {
        var outcome;
        outcome, patterns := AddRule(patterns, lines[k]);
        assert outcome == outcomes[k];
        FilterStep(outcomes, k, rules);
        if outcome.IndexError? {
          FilterCrashPersists(outcomes, k + 1);
          return None;
        }
        rules := rules + RuleOf(outcome);
      }
      assert outcomes[..|lines|] == outcomes;
    }
    return Some(patterns);
  }

  /** `xs.remove(x)` when `x` is in `xs`, and `xs` unchanged otherwise
      (lines 156-157). */
  function RemoveFirst(xs: seq<string>, x: string): seq<string> {
    if |xs| == 0 then []
    else if xs[0] == x then xs[1..]
    else [xs[0]] + RemoveFirst(xs[1..], x)
  }

  /** Where `x` first occurs in `xs`. */
  function FirstIndex(xs: seq<string>, x: string): (i: nat)
    requires x in xs
    ensures i < |xs| && xs[i] == x && x !in xs[..i]
  {
    if xs[0] == x then 0 else 1 + FirstIndex(xs[1..], x)
  }

  /** A list without `x` is left alone. */
  lemma {:induction false} RemoveFirstAbsent(xs: seq<string>, x: string)
    requires x !in xs
    ensures RemoveFirst(xs, x) == xs
  {
    if |xs| > 0 {
      assert x !in xs[1..];
      RemoveFirstAbsent(xs[1..], x);
      assert xs == [xs[0]] + xs[1..];
    }
  }

  /** Removing `x` takes out its first occurrence and keeps everything
      else in order. */
  lemma {:induction false} RemoveFirstPresent(xs: seq<string>, x: string)
    requires x in xs
    ensures RemoveFirst(xs, x) == xs[..FirstIndex(xs, x)] + xs[FirstIndex(xs, x) + 1..]
  {
    if xs[0] != x {
      var tail := xs[1..];
      assert x in tail;
      RemoveFirstPresent(tail, x);
      var i := FirstIndex(tail, x);
      assert FirstIndex(xs, x) == i + 1;
      assert xs[..i + 1] == [xs[0]] + tail[..i];
      assert xs[i + 2..] == tail[i + 1..];
    }
  }

  /** Removing `x` drops exactly one copy of it, when there is one. */
  lemma {:induction false} RemoveFirstMultiset(xs: seq<string>, x: string)
    ensures multiset(RemoveFirst(xs, x)) == multiset(xs) - multiset{x}
  {
    if |xs| == 0 {
      assert multiset(xs) == multiset{};
    } else {
      assert xs == [xs[0]] + xs[1..];
      if xs[0] != x {
        RemoveFirstMultiset(xs[1..], x);
        assert multiset(RemoveFirst(xs, x)) == multiset{xs[0]} + multiset(RemoveFirst(xs[1..], x));
      }
    }
  }

  /** The options `main` is given (lines 59-95). */
  datatype Options = Options(projectName: string, src: string, dest: string, exclude: seq<string>,
                             filter: Option<string>, rsyncInterval: int, yes: bool)

  /** How `main` ends: a filter line raised `IndexError` before anything
      ran; `exit(0)` after the listed runs; or, after the listed runs,
      `run_fswatch` is started (line 158) with the arguments recorded here:
      the folder it watches, where its syncs go, the excludes and filter
      file its syncs pass to rsync, the interval, and the list fswatch
      excludes. */
  datatype Ending =
    | FilterCrash
    | Exit(runs: seq<Run>)
    | Watching(runs: seq<Run>, watched: string, syncTo: string, syncExclude: seq<string>,
               syncFilter: Option<string>, interval: int, watchExclude: seq<string>)

  /** `main`, given the filter file's lines, the number of lines the first
      dry run printed, and the answers typed at the two prompts. */
  function Session(o: Options, lines: seq<string>, count: nat,
                   choiceAnswer: string, proceedAnswer: string): Ending
  {
    var srcn := PathJoin(o.src, o.projectName);
    var destn := PathJoin(o.dest, o.projectName);
    match WatchExcludes(o.exclude, o.filter, lines)
    case None => FilterCrash
    case Some(excludeWithFilter) =>
      var d := Reconcile(srcn, destn, o.src, o.dest, o.exclude, o.filter, count, o.yes, choiceAnswer, proceedAnswer);
      if !d.watch then Exit(d.runs)
      else Watching(d.runs, srcn, o.dest, o.exclude, o.filter, o.rsyncInterval,
                    RemoveFirst(excludeWithFilter, ".project"))
  }

  /** Lines 97-158 in the order `main` runs them. */
  method RunSession(o: Options, lines: seq<string>, count: nat,
                    choiceAnswer: string, proceedAnswer: string) returns (ending: Ending)
    ensures ending == Session(o, lines, count, choiceAnswer, proceedAnswer)
  {
    var srcn := PathJoin(o.src, o.projectName);
    var destn := PathJoin(o.dest, o.projectName);
    var excludeWithFilter := CollectExcludes(o.exclude, o.filter, lines);
    if excludeWithFilter.None? {
      return FilterCrash;
    }
    var d := Reconcile(srcn, destn, o.src, o.dest, o.exclude, o.filter, count, o.yes, choiceAnswer, proceedAnswer);
    if !d.watch {
      return Exit(d.runs);
    }
    var watchExclude := excludeWithFilter.value;
    if ".project" in watchExclude {
      watchExclude := RemoveFirst(watchExclude, ".project");
    }
    if ".project" !in excludeWithFilter.value {
      RemoveFirstAbsent(excludeWithFilter.value, ".project");
    }
    return Watching(d.runs, srcn, o.dest, o.exclude, o.filter, o.rsyncInterval, watchExclude);
  }

  /** The watcher excludes the literal excludes and then every filter
      pattern, in file order. */
  lemma WatchExcludesLayout(exclude: seq<string>, filter: Option<string>, lines: seq<string>)
    requires WatchExcludes(exclude, filter, lines).Some?
    ensures var all := WatchExcludes(exclude, filter, lines).value;
      && all[..|exclude|] == exclude
      && all[|exclude|..] == (if filter.Some? then FilterRules(Outcomes(lines)).value else [])
  {
  }

  /** When the session goes on to watch, fswatch watches the source
      project folder with the assembled list minus its first `.project`,
      and each sync goes from that folder into `dest` with the literal
      excludes, the filter file and the interval `main` was given. */
  lemma WatchingFacts(o: Options, lines: seq<string>, count: nat,
                      choiceAnswer: string, proceedAnswer: string)
    requires Session(o, lines, count, choiceAnswer, proceedAnswer).Watching?
    ensures var e := Session(o, lines, count, choiceAnswer, proceedAnswer);
      && WatchExcludes(o.exclude, o.filter, lines).Some?
      && e.watched == PathJoin(o.src, o.projectName) && e.syncTo == o.dest
      && e.watchExclude == RemoveFirst(WatchExcludes(o.exclude, o.filter, lines).value, ".project")
      && e.syncExclude == o.exclude && e.syncFilter == o.filter && e.interval == o.rsyncInterval
  {
  }

  /** rsync is only ever given the literal excludes and the filter file:
      every run of the session, and every sync of the watch loop, builds
      its command from `o.exclude` and `o.filter`, never from the list
      the filter file's patterns were merged into. */
  lemma RsyncGetsLiteralExcludes(o: Options, lines: seq<string>, count: nat,
                                 choiceAnswer: string, proceedAnswer: string, k: nat)
    requires !Session(o, lines, count, choiceAnswer, proceedAnswer).FilterCrash?
    requires k < |Session(o, lines, count, choiceAnswer, proceedAnswer).runs|
    ensures var r := Session(o, lines, count, choiceAnswer, proceedAnswer).runs[k];
      Command(r) == RsyncCommand(r.from, r.to, o.exclude, o.filter, r.dryRun)
  {
    var srcn := PathJoin(o.src, o.projectName);
    var destn := PathJoin(o.dest, o.projectName);
    RunsUseLiteralExcludes(srcn, destn, o.src, o.dest, o.exclude, o.filter, count, o.yes,
                           choiceAnswer, proceedAnswer);
  }

  /** A filter line that crashes stops `main` before any rsync runs;
      otherwise the session starts with the comparison dry run. */
  lemma CrashBeforeAnyRun(o: Options, lines: seq<string>, count: nat,
                          choiceAnswer: string, proceedAnswer: string)
    ensures var e := Session(o, lines, count, choiceAnswer, proceedAnswer);
      && (e.FilterCrash? <==>
            (o.filter.Some? && exists i :: 0 <= i < |lines| && Outcomes(lines)[i].IndexError?))
      && (!e.FilterCrash? ==> e.runs[0] == Run(PathJoin(o.src, o.projectName), o.dest, o.exclude, o.filter, true))
  {
    FilterCrashIff(Outcomes(lines));
    var srcn := PathJoin(o.src, o.projectName);
    var destn := PathJoin(o.dest, o.projectName);
    ComparisonComesFirst(srcn, destn, o.src, o.dest, o.exclude, o.filter, count, o.yes,
                         choiceAnswer, proceedAnswer);
  }
}
