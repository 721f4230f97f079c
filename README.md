# workonsh, modelled in Dafny

workonsh keeps a project folder in two places in step. It compares a
source folder with a destination folder by a dry run of rsync. If they
differ, it asks which side wins, dry-runs that sync and, once confirmed,
runs it for real. It then watches the source with fswatch and re-runs rsync
whenever a change is reported, at most once per interval. Both tools are
given exclude patterns: the literal `--exclude` values and, when a filter
file (a `.gitignore`) is given, the regular expression each of its lines
compiles to.

The model covers:

- `rule_from_pattern` and `fnmatch_pathname_to_regex` (workonsh/utils.py),
  which compile a `.gitignore` line to the text of a regular expression;
- `build_rsync_command` and `build_fswatch_command` (workonsh/main.py),
  which assemble the argument lists;
- the debounce loop of `run_fswatch`;
- what `main` decides: the exclude list, the rsync runs, the prompts,
  `exit(0)`, and the removal of `.project` before watching.

The modules are:

- `PyText`: the Python string behaviour the program relies on
  (`str.isspace`, `rstrip`, `rstrip('\n')`, `lower`, `os.path.join`).
- `Glob`: the glob-to-regex translation. The function `Translate` reads
  the pattern token by token and renders each token. The method
  `FnmatchPathnameToRegex` is the source's index-walking loop, proved to
  produce it.
- `IgnoreRule`: `rule_from_pattern`. The function `Compile` returns
  one of three outcomes: no rule, a rule with its regex, or `IndexError`
  for the lines on which the source indexes past the end of a pattern
  that has been reduced to nothing, or to a lone backslash. The method
  `RuleFromPattern` follows the source statement by statement.
- `Commands`: the rsync and fswatch argument lists and the loops that
  build them.
- `Watch`: `run_fswatch`'s loop over reported changes, with the clock
  readings as inputs.
- `Session`: `main` from line 97 on. The filter file's lines, the number of
  lines the first dry run printed, and the answers typed at the prompts
  are its inputs.

## Model

| member | source | states |
|---|---|---|
| PyText.IsSpace | workonsh/utils.py:21 | the characters `str.isspace()` accepts, the ones `strip()` and `rstrip()` remove: ASCII space, `\t` to `\r`, `\x1c` to `\x1f`, and the Unicode spaces and separators |
| PyText.IsBlank | workonsh/utils.py:21 | `pattern.strip() == ''`: every character is one that Python treats as whitespace |
| PyText.RStrip | workonsh/utils.py:42 | the result is a prefix of the input that does not end in whitespace, and only whitespace was removed |
| PyText.RStripNewlines | workonsh/main.py:104 | the result is a prefix of the line that does not end in `\n`, and only newlines were removed |
| PyText.Lower | workonsh/main.py:125 | same length, every character lower-cased on its own |
| PyText.LowerIsLetter | workonsh/main.py:125-130 | an answer lower-cases to a one-letter answer exactly when it is that letter or its capital |
| PyText.PathJoin | workonsh/main.py:98-99 | `os.path.join` on POSIX: an absolute second part replaces the first, otherwise a single `/` joins them |
| PyText.LowerIdempotent | workonsh/main.py:125 | lower-casing twice is lower-casing once |
| Glob.Translate | workonsh/utils.py:84-142 | what `fnmatch_pathname_to_regex` returns: the renderings of the tokens read from index 0, joined |
| Glob.TokenAt | workonsh/utils.py:99-136 | the token the loop reads at an index, and the index it resumes at, which is always further on |
| Glob.Render | workonsh/utils.py:101-136 | the regex text the loop appends for each kind of token |
| Glob.ClassRegex | workonsh/utils.py:128-134 | the bracketed class for an escaped body: a leading `!` becomes `^`, and a leading `^` gets `/` in front |
| Glob.ClassSearchStart | workonsh/utils.py:118-122 | where the search for `]` starts: past the `[`, an optional `!` and then an optional `]` |
| Glob.ClassEnd | workonsh/utils.py:123-124 | the index the search for `]` stops at, between its start and the end of the pattern |
| Glob.EscapeBackslashes | workonsh/utils.py:128 | `replace('\\', '\\\\')`: each backslash of the class body doubled, every other character kept, in order |
| Glob.EscapeBackslashesRoundTrip | workonsh/utils.py:128 | doubling the backslashes of a class body loses nothing: undoubling gives the body back |
| Glob.ClassEndIsFirst | workonsh/utils.py:123-124 | the search for the closing `]` stops at the first `]` from its start, or at the end when there is none |
| Glob.ClassEndAt | workonsh/utils.py:123-124 | conversely, the first `]` after the start, or the end when there is none, is where the search stops |
| Glob.TokenSpelled | workonsh/utils.py:98-136 | a token is read from exactly the characters it consumes; class bodies are non-empty; literals are never special characters |
| Glob.SpellingOfTokens | workonsh/utils.py:98-136 | spelling the tokens back gives the pattern: every character is consumed exactly once, in order |
| Glob.TranslateRendersTokens | workonsh/utils.py:97-140 | the translation is the renderings of the token sequence, joined in order |
| Glob.TranslateFrom | workonsh/utils.py:97-136 | the text the loop appends from index `i` on: the rendering of the token at `i`, then the text from the index the loop resumes at |
| Glob.Join | workonsh/utils.py:140 | `"".join(res)`: the appended pieces concatenated in the order they were appended |
| Glob.LiteralsAreOrdinary | workonsh/utils.py:135-136 | no literal token is a `*`, `?`, `/` or `[` |
| Glob.LiteralRun | workonsh/utils.py:135-136 | a stretch without special characters is copied into the regex unchanged |
| Glob.LiteralRule | workonsh/utils.py:135-136 | an ordinary character is copied as it is |
| Glob.PlainTextCopied | workonsh/utils.py:84-142 | a pattern without special characters translates to itself |
| Glob.RenderHead | workonsh/utils.py:99-136 | every token renders to non-empty text, which starts with `^` only for a literal `^` |
| Glob.TranslateHead | workonsh/utils.py:97-140 | a non-empty pattern translates to non-empty text that starts with `^` exactly when the pattern does |
| Glob.StarRule | workonsh/utils.py:101-112 | a single `*` becomes `[^/]*`, at the end of the pattern too |
| Glob.AnyCharRule | workonsh/utils.py:113-114 | `?` becomes `[^/]` |
| Glob.SeparatorRule | workonsh/utils.py:115-116 | `/` becomes `[/]` |
| Glob.AnyDirectoriesRule | workonsh/utils.py:103-108 | `**/` becomes `.*[/]?` |
| Glob.AnySegmentsRule | workonsh/utils.py:103-105 | `**` before anything but `/` becomes `.*` |
| Glob.TrailingAnyRule | workonsh/utils.py:101-112 | a trailing `**` becomes `.*[^/]*`: the second lookahead fails after `.*` has been appended |
| Glob.UnterminatedBracketRule | workonsh/utils.py:117-126 | a `[` that no `]` closes, counting from after an optional `!` and an optional `]`, becomes the escaped `\[` and the loop goes on right after it |
| Glob.EmptyClassesAreLiteral | workonsh/utils.py:117-136 | `[]` translates to `\[]` and `[!]` to `\[!]`: a `]` straight after the bracket does not close it |
| Glob.ClassRule | workonsh/utils.py:117-134 | a class runs from `[` to the first `]` after an optional `!` and an optional `]`, and renders as its escaped body in brackets |
| Glob.LeadingBracketInClass | workonsh/utils.py:118-122 | a `]` right after `[` or `[!` belongs to the class body |
| Glob.PlainClassRegex | workonsh/utils.py:128-134 | a body not starting with `!` or `^` is bracketed with its backslashes doubled |
| Glob.NegatedClassRegex | workonsh/utils.py:130-131 | a leading `!` negates the class as `[^...]` |
| Glob.CaretClassRegex | workonsh/utils.py:132-133 | a leading `^` gets a `/` in front of it, so `[^x]` becomes `[/^x]`: the `^` is literal, but the `/` joins the class, which then also matches the separator |
| Glob.FindClassEnd | workonsh/utils.py:123-124 | the inner loop stops where `ClassEnd` says: at the first `]` from its start, or at the end |
| Glob.TranslateBracket | workonsh/utils.py:117-134 | the `[` branch appends the rendering of the class or lone-bracket token and resumes past it |
| Glob.TranslateToken | workonsh/utils.py:99-136 | one pass of the loop appends the rendering of the token at `i` and resumes at the index past it |
| Glob.FnmatchPathnameToRegex | workonsh/utils.py:84-142 | the loop produces the token-by-token translation of the whole pattern; `directory_only` has no effect |
| IgnoreRule.Compile | workonsh/utils.py:7-78 | what `rule_from_pattern(line)` returns or raises: no rule for blank lines, comments and lines with `***`; otherwise the outcome of the rest for the line without its `!` |
| IgnoreRule.CompileUnbanged | workonsh/utils.py:32-78 | lines 32-78: no rule for a misplaced `**` or a lone `/`; `IndexError` where a step indexes nothing; otherwise the translation of the stripped pattern, with `^` in front when anchored |
| IgnoreRule.HasTripleStar | workonsh/utils.py:24 | `pattern.find('***') > -1` |
| IgnoreRule.Unbang | workonsh/utils.py:27-31 | the pattern without a leading `!`, and unchanged otherwise |
| IgnoreRule.DoubleStarStarts | workonsh/utils.py:34 | the start of every non-overlapping `**` that `re.finditer` reports, each a real `**` in the pattern |
| IgnoreRule.DoubleStarsValid | workonsh/utils.py:34-39 | every reported `**` is at the start, at the end, or between two slashes |
| IgnoreRule.AllDoubleStarsReported | workonsh/utils.py:34 | when the pattern has no `***`, the scan reports every `**` that starts at or after where it begins, so no `**` escapes the check |
| IgnoreRule.DoubleStarsValidIffAllAllowed | workonsh/utils.py:34-39 | for a pattern with no `***`, the scan accepts exactly when every `**` in it is at the start, at the end, or between two slashes |
| IgnoreRule.MisplacedDoubleStarRejected | workonsh/utils.py:21-39 | a line that passes the early returns and, once its `!` is dropped, has a `**` anywhere that is not at the start, at the end or between two slashes gives no rule |
| IgnoreRule.DoubleStarAllowed | workonsh/utils.py:36-38 | a `**` starting at `s` is allowed at the very start, as the last two characters, or with a `/` right before and right after it |
| IgnoreRule.LoneSlash | workonsh/utils.py:42 | `pattern.rstrip() == '/'`, applied to the right-stripped pattern: it is exactly one `/` |
| IgnoreRule.InnerSlash | workonsh/utils.py:48 | `anchored`: a `/` stands somewhere before the last character of the pattern |
| IgnoreRule.StripMarkers | workonsh/utils.py:49-60 | the marker stage: a leading `/`, a leading `**` (which cancels anchoring), a second leading `/` and a trailing `/` dropped, a leading `\#` unescaped; `None` where Python raises `IndexError` |
| IgnoreRule.DropLeadingStars | workonsh/utils.py:51-53 | a leading `**` is dropped and cancels anchoring, then the later steps follow |
| IgnoreRule.DropSecondSlash | workonsh/utils.py:54-55 | a leading `/` is dropped, then the later steps follow |
| IgnoreRule.DropTrailingSlash | workonsh/utils.py:56-57 | a trailing `/` is dropped, then the last step follows |
| IgnoreRule.UnescapeHash | workonsh/utils.py:59-60 | a leading `\#` loses its backslash; an empty pattern or a lone backslash raises `IndexError` |
| IgnoreRule.TrailingSpaces | workonsh/utils.py:62-72 | the trailing-space loop's result: never longer than the pattern, and it keeps the first character |
| IgnoreRule.CheckDoubleStars | workonsh/utils.py:34-39 | the loop accepts exactly when every `**` the scan reports is allowed, which for a pattern with no `***` (the only kind it is given) means every `**` is at the start, at the end, or between two slashes |
| IgnoreRule.StripPatternMarkers | workonsh/utils.py:49-60 | the in-place rewrites give the marker-stripped pattern and anchoring, or `IndexError` where the source indexes an empty pattern or past a lone backslash |
| IgnoreRule.UnescapeTrailingSpaces | workonsh/utils.py:62-72 | the backward loop produces the trailing-space rewriting of the pattern |
| IgnoreRule.RuleFromUnbanged | workonsh/utils.py:32-78 | the steps after the `!` is dropped produce the compiled outcome |
| IgnoreRule.RuleFromPattern | workonsh/utils.py:7-78 | the function returns the compiled outcome of the line: no rule, a regex, or `IndexError` |
| IgnoreRule.TripleStarOfBang | workonsh/utils.py:24-29 | a leading `!` neither adds nor removes a run of three stars |
| IgnoreRule.NegationIgnored | workonsh/utils.py:27-31 | a negated line compiles exactly as the line without its `!`: negation is not recorded in the result |
| IgnoreRule.NoStarsNoDoubleStars | workonsh/utils.py:24-39 | a pattern with neither `*` nor `/` passes both star checks |
| IgnoreRule.RStripNotSlash | workonsh/utils.py:42-43 | a pattern that is not blank and does not start with `/` is not the lone `/` |
| IgnoreRule.StripMarkersFacts | workonsh/utils.py:49-60 | the stripped pattern is non-empty; it stays anchored unless it began with `**` or `/**`; it starts with `^` only if the line had one |
| IgnoreRule.NoCaretNeverStripsToCaret | workonsh/utils.py:49-60 | a line without any `^` never strips to a pattern that starts with `^`, so the anchoring iff holds for it |
| IgnoreRule.AnchoredIffUnlessStripsToCaret | workonsh/utils.py:45-77 | unless the pattern left once the markers are stripped starts with a `^` of its own, the regex starts with `^` exactly when, after a leading `!` is dropped, a `/` stands before the last character and the line does not begin with `**` or `/**` |
| IgnoreRule.AnchoredIffInnerSlash | workonsh/utils.py:45-77 | with no `^` in the line, the regex starts with `^` exactly when, after a leading `!` is dropped, a `/` stands before the last character and the line does not begin with `**` or `/**` |
| IgnoreRule.CaretLooksAnchored | workonsh/utils.py:48-77 | the counterexample without that proviso: `^a` has no inner `/`, yet its regex starts with `^` |
| IgnoreRule.QuietMarkers | workonsh/utils.py:48-60 | without `/`, `*` or a leading backslash, the marker stage changes nothing and does not anchor |
| IgnoreRule.QuietLine | workonsh/utils.py:21-78 | such a line only goes through the trailing-space loop and the translation |
| IgnoreRule.PlainNameIsItself | workonsh/utils.py:7-78 | a plain name compiles to itself, unanchored |
| IgnoreRule.DirectoryNameIsItself | workonsh/utils.py:45-57 | a plain name with a trailing `/` compiles to the name alone: directory-only makes no difference to the regex |
| IgnoreRule.RootedNameIsAnchored | workonsh/utils.py:48-50 | `/name` compiles to `^name` |
| IgnoreRule.IndentedHashIsNotComment | workonsh/utils.py:21 | only a `#` in first position makes a comment: ` #x` is a pattern matched by itself |
| IgnoreRule.EscapedHashMarkers | workonsh/utils.py:58-60 | a leading `\#` loses only its backslash in the marker stage |
| IgnoreRule.EscapedHashIsLiteral | workonsh/utils.py:58-60 | `\#x` compiles to `#x` |
| IgnoreRule.UnescapedSpacesDropped | workonsh/utils.py:62-72 | unescaped trailing spaces are all cut off while no escaped space has been seen |
| IgnoreRule.SpacesKeptAfterEscape | workonsh/utils.py:62-72 | once an escaped space has been seen, unescaped spaces before it are kept |
| IgnoreRule.EscapedSpace | workonsh/utils.py:64-68 | an escaped space is kept without its backslash, the unescaped spaces after it are dropped, and what precedes it goes through the loop with stripping switched off |
| IgnoreRule.TrailingSpacesIgnored | workonsh/utils.py:61-72 | trailing spaces after a plain name of two or more characters do not change its rule |
| IgnoreRule.ShortPatternKeepsTrailingSpace | workonsh/utils.py:64 | the loop never looks at index 1: in a two-character pattern the space stays |
| IgnoreRule.NameAndSpaceCopied | workonsh/utils.py:135-136 | a plain name followed by a space translates to itself |
| IgnoreRule.EscapedTrailingSpaceKept | workonsh/utils.py:61-72 | `name\ ` followed by spaces compiles to `name ` |
| IgnoreRule.LoneBangCrashes | workonsh/utils.py:27-45 | `!` raises `IndexError` |
| IgnoreRule.LoneBackslashCrashes | workonsh/utils.py:45-59 | `\` raises `IndexError` |
| IgnoreRule.DoubleStarsAloneCrash | workonsh/utils.py:51-54 | `**` raises `IndexError` |
| IgnoreRule.RootedDoubleStarsCrash | workonsh/utils.py:49-54 | `/**` raises `IndexError` |
| IgnoreRule.DoubleStarsDirectoryCrash | workonsh/utils.py:51-56 | `**/` raises `IndexError` |
| IgnoreRule.SlashesAloneCrash | workonsh/utils.py:49-56 | `//` raises `IndexError` |
| IgnoreRule.ThreeSlashesCrash | workonsh/utils.py:49-59 | `///` raises `IndexError` |
| Commands.ExcludeArgs | workonsh/main.py:20-21 | twice as many arguments as excludes: `--exclude` at every even position, followed by the exclude it goes with |
| Commands.RsyncHeader | workonsh/main.py:16-19 | the options a command starts with: `rsync -aic --delete` for a dry run, `rsync -avzic --progress --delete` for a real one |
| Commands.FilterArgs | workonsh/main.py:22-23 | `--filter` and the merge rule `:- ` followed by the file name when a filter file is given, nothing otherwise |
| Commands.DryRunArgs | workonsh/main.py:24-25 | `--dry-run` for a dry run, nothing for a real one |
| Commands.RsyncCommand | workonsh/main.py:15-27 | the list `build_rsync_command` returns: the header, the exclude pairs, `--filter`, `--dry-run`, then the two paths |
| Commands.FswatchCommand | workonsh/main.py:29-34 | the list `build_fswatch_command` returns |
| Commands.ExcludeArgsRoundTrip | workonsh/main.py:20-21 | the excludes can be read back from the pairs, in order |
| Commands.ExcludeArgsMembers | workonsh/main.py:20-21 | the pairs hold nothing but the flag and the caller's excludes |
| Commands.AppendExcludes | workonsh/main.py:20-21 | the loop appends exactly the exclude pairs |
| Commands.BuildRsyncCommand | workonsh/main.py:15-27 | the method builds the rsync argument list |
| Commands.BuildFswatchCommand | workonsh/main.py:29-34 | the method builds the fswatch argument list |
| Commands.RsyncCommandLayout | workonsh/main.py:15-27 | the list has a 3-argument (dry) or 4-argument (real) header, then the pairs in order, then `--filter` only when a filter is given, then `--dry-run` only on a dry run, then source and destination last; its exact length follows |
| Commands.RealRunHasNoDryRun | workonsh/main.py:15-27 | a real run carries no `--dry-run`, unless the caller passed that string in |
| Commands.FswatchCommandLayout | workonsh/main.py:29-34 | `fswatch --recursive`, the pairs in order, then the watched folder: `3 + 2n` arguments |
| Watch.LastSynced | workonsh/main.py:38-46 | `last_rsynced` once a run of changes has been examined: the start reading, replaced by the after-sync reading of each change that fired |
| Watch.Fires | workonsh/main.py:43 | one verdict per change, in order: whether it started a sync |
| Watch.FiresIff | workonsh/main.py:43 | a change starts a sync exactly when at least the interval has passed since the last sync, or since the loop began |
| Watch.SyncsAtMostEvents | workonsh/main.py:40-46 | there are never more syncs than reported changes |
| Watch.LastSyncedAfterSync | workonsh/main.py:43-46 | with a clock that does not go back, the last-sync time is never older than the end of any earlier sync |
| Watch.SyncSpacing | workonsh/main.py:38-46 | with such a clock, two syncs start at least the interval apart, measured both from the end of the earlier one and from its check |
| Watch.OnChange | workonsh/main.py:43-46 | one change runs a real rsync from source to destination exactly when it fires, and updates the last-sync time only then |
| Watch.RunFswatch | workonsh/main.py:37-46 | the watcher excludes the merged list; the changes fire as the debounce rule says; one real rsync with the literal excludes per firing |
| Session.Reconcile | workonsh/main.py:109-152 | the prompt logic: the comparison dry run, then, if it printed anything, the choice, the dry run of the chosen direction, the confirmation and the real run, or `exit(0)` |
| Session.Command | workonsh/main.py:49-51 | the argument list `run_rsync` builds for a run |
| Session.RunsUseLiteralExcludes | workonsh/main.py:111-146 | every run the prompts lead to gets the excludes and filter file `main` was given; the answers choose only the folders and whether the run is dry |
| Session.ComparisonComesFirst | workonsh/main.py:109-152 | every session starts with a dry run from the source project folder to `dest`, and makes one to three runs |
| Session.InSyncGoesStraightToWatch | workonsh/main.py:111-113 | when the dry run printed nothing, nothing is asked and the session goes on to watch |
| Session.YesSyncsSourceToDest | workonsh/main.py:121-146 | with `--yes`, the source is synced into the destination after a dry run of the same pair |
| Session.AnswersIgnoreCase | workonsh/main.py:125-144 | an answer and its lower-case form lead to the same session |
| Session.RealSyncOnlyAfterDryRun | workonsh/main.py:135-148 | a real sync is always the third run, follows a dry run of the same pair, needs a `y` or `--yes`, and leads to watching |
| Session.ExitIffNotReconciled | workonsh/main.py:113-152 | `exit(0)` happens exactly when the folders differed and every run was a dry run |
| Session.AnswersDecide | workonsh/main.py:125-148 | without `--yes`: watching iff the choice is `s`/`S`/`d`/`D` and the confirmation is `y`/`Y`; `s` syncs the source project into `dest`, `d` the destination project into `src` |
| Session.Outcomes | workonsh/main.py:103-105 | one compiled outcome per filter-file line |
| Session.FilterRules | workonsh/main.py:101-107 | a file never adds more patterns than it has lines |
| Session.FilterRulesAppend | workonsh/main.py:101-107 | the patterns of a split file are those of its first part followed by those of its second |
| Session.FilterCrashIff | workonsh/main.py:101-107 | the file is refused exactly when one of its lines raises `IndexError` |
| Session.FilterRulesFromLines | workonsh/main.py:104-107 | every added pattern is the regex of one of the lines |
| Session.FilterCrashPersists | workonsh/main.py:101-107 | a crashing line makes every longer file crash |
| Session.AddRule | workonsh/main.py:104-107 | one turn compiles the line without its line break, and appends the regex when there is one |
| Session.RuleOf | workonsh/main.py:106-107 | what one compiled line adds to the list: its regex when it has one, nothing for no rule |
| Session.CollectExcludes | workonsh/main.py:97-107 | the loop builds the literal excludes followed by the filter patterns, or stops on a crashing line |
| Session.WatchExcludesLayout | workonsh/main.py:97-107 | the merged list starts with the literal excludes and continues with the filter's patterns, in file order |
| Session.WatchExcludes | workonsh/main.py:97-107 | `exclude_with_filter`: the literal excludes, then the filter file's patterns; `None` when a line crashes |
| Session.RemoveFirst | workonsh/main.py:156-157 | `list.remove('.project')` when it is present |
| Session.RemoveFirstAbsent | workonsh/main.py:156-157 | a list without `.project` is left alone |
| Session.RemoveFirstPresent | workonsh/main.py:156-157 | the first `.project` is taken out, and the order of everything else is kept |
| Session.RemoveFirstMultiset | workonsh/main.py:156-157 | exactly one copy of `.project` is dropped when there is one, and nothing else |
| Session.Session | workonsh/main.py:97-158 | `main` from line 97 on: the merged list, the prompt logic, and how it ends |
| Session.RunSession | workonsh/main.py:97-158 | `main` ends as the function `Session` says: by a filter crash, by `exit(0)` after its runs, or by starting the watch loop with the recorded arguments |
| Session.WatchingFacts | workonsh/main.py:154-158 | when watching: the source project folder is watched with the merged list minus its first `.project`; syncs go to `dest` with the literal excludes, the filter file and the given interval |
| Session.RsyncGetsLiteralExcludes | workonsh/main.py:97-158 | every rsync run of the session builds its command from the literal excludes and the filter file, never from the merged list |
| Session.CrashBeforeAnyRun | workonsh/main.py:101-111 | a crashing filter line ends `main` before any rsync runs, exactly when a filter is given and one of its lines crashes; otherwise the comparison dry run comes first |

## Left out

- The `base_path` check of `rule_from_pattern` (workonsh/utils.py:16-17): `main` never passes a base path, so the model has no base-path parameter.
- `make_logger`, all logging and every `print`: they do not affect what runs.
- `run_process` and the output of `run_rsync`: the model records which rsync runs happen (`Session.Run`: from where, to where, with which excludes and filter file, dry or real) and the argument list each gets (`Session.Command`). The number of lines the first dry run prints is an input.
- Option parsing by click, including its defaults (the excludes `__pycache__`, `.git/` and `.git/*`, and an interval of 5): `Session.Options` holds the parsed values. `run_fswatch`'s own default interval of 3 is never used by `main`.
- `input()`, `exit(0)` and reading the filter file: the typed answers and the file's lines are inputs, and `exit(0)` is the `Exit` ending. End of input at a prompt is not modelled.
- The fswatch process is not modelled. Its stream of reported changes is a finite sequence of clock readings: the reading at the check (main.py:43) and the reading after rsync returns (main.py:46). The text of each change is not modelled.
- Watch.RunFswatch: examines every reported change. It does not capture that main.py:41 decodes each line with `line.decode('utf-8')`, which raises `UnicodeDecodeError` on a path that is not valid UTF-8 and so ends `run_fswatch` and `main`.
- `time.time()` is not modelled as floating point: readings are exact reals, with no rounding. The interval is the integer `main` is given, compared against those reals.
- Watch.SyncSpacing: holds only for a clock that does not go back (`Monotone`); the source assumes this without checking it.
- PyText.Lower: folds only ASCII letters. Python's `str.lower` also folds other alphabets, and that matters only for non-ASCII answers at the prompts.
- PyText.PathJoin: models `os.path.join` for POSIX; `os.sep` is `/` and there is no `os.altsep`.
- Glob.Translate: the separator group of utils.py:91-95 is written out for POSIX: `re.escape(os.sep)` is the plain `/` and `os.altsep` is `None`, so `[/]` and `[^/]`; other platforms are not modelled.
- What the regular expressions match is not modelled: the model produces their text. rsync and fswatch interpret it, and nothing in workonsh runs a match.
- `negation` and `directory_only` are computed by `rule_from_pattern` but never returned or used, so the model drops them. `FnmatchPathnameToRegex` accepts `directory_only` and ignores it, as the source does.
- `IndexError` raised by `rule_from_pattern` (for the lines `!`, `\`, `**`, `/**`, `**/`, `//`, `///`, among others) is the outcome `IndexError`, and it ends `main` (`FilterCrash`). The traceback is not modelled.

## Behaviour of the code worth knowing

- A `*` becomes `[^/]*`, which also matches an empty run of characters.
- A line whose pattern is reduced to nothing, such as `**`, `/**` or `//`, makes `rule_from_pattern` raise `IndexError`, and `main` stops before any rsync runs. gitignore(5) gives `**` and a leading `**/` a meaning (everything, and any directory depth).
- Ordinary characters are copied unescaped, so regex metacharacters keep their regex meaning. For example, the regex of `^a` starts with `^` although `^a` is not anchored (`IgnoreRule.CaretLooksAnchored`). In gitignore(5) patterns, which follow fnmatch(3), such characters stand for themselves.
- A class starting with `^` gets `/` in front of it, so the class also matches the separator. CPython's `fnmatch.translate` puts a backslash there instead.
- `[]` and `[!]` are not classes: the `]` right after the bracket is skipped, no later `]` closes it, and the `[` is escaped (`Glob.EmptyClassesAreLiteral`).
- A leading `!` is dropped and has no effect: a negated line excludes what the line without `!` would. In gitignore(5) a leading `!` re-includes what an earlier pattern excluded.
- The first comparison is a dry run from the source project folder to `dest` itself, not to the destination project folder. A `d` answer syncs the destination project folder into `src`.
- The watcher's exclude list is the merged list without its first `.project`. Every rsync run, before and during watching, gets the literal excludes and the filter file instead (`Session.RsyncGetsLiteralExcludes`).
