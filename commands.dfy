/** The argument lists workonsh hands to rsync and to fswatch
    (`build_rsync_command` and `build_fswatch_command`, workonsh/main.py).

    `RsyncCommand` and `FswatchCommand` say what each list is, part by part;
    `BuildRsyncCommand` and `BuildFswatchCommand` are the source's loops that
    extend the list pair by pair, proved to build exactly that list.  The
    lemmas give the layout a caller relies on: where the header ends, where
    each `--exclude` pair sits, when `--filter` and `--dry-run` appear, that
    the last arguments are the paths, and how long the list is. */
module Commands {
  import opened PyText

  /** `["--exclude", exc]` for every `exc`, in order: what the loops of
      lines 20-21 and 31-32 append. */
  function ExcludeArgs(exclude: seq<string>): (r: seq<string>)
    ensures |r| == 2 * |exclude|
    ensures forall k :: 0 <= k < |exclude| ==> r[2 * k] == "--exclude" && r[2 * k + 1] == exclude[k]
  {
    if |exclude| == 0 then []
    else ExcludeArgs(exclude[..|exclude| - 1]) + ["--exclude", exclude[|exclude| - 1]]
  }

  /** Reads the values back out of a list of `--exclude` pairs. */
  function ExcludedValues(args: seq<string>): seq<string>
    requires |args| % 2 == 0
  {
    if |args| == 0 then [] else [args[1]] + ExcludedValues(args[2..])
  }

  /** Nothing is lost in the pairs: the excludes can be read back in order. */
  lemma ExcludeArgsRoundTrip(exclude: seq<string>)
    ensures ExcludedValues(ExcludeArgs(exclude)) == exclude
  {
    var args := ExcludeArgs(exclude);
    ExcludedValuesAt(args);
    assert |ExcludedValues(args)| == |exclude|;
  }

  lemma {:induction false} ExcludedValuesAt(args: seq<string>)
    requires |args| % 2 == 0
    ensures |ExcludedValues(args)| == |args| / 2
    ensures forall k :: 0 <= k < |args| / 2 ==> ExcludedValues(args)[k] == args[2 * k + 1]
  {
    if |args| > 0 {
      ExcludedValuesAt(args[2..]);
      forall k | 0 <= k < |args| / 2
        ensures ExcludedValues(args)[k] == args[2 * k + 1]
      {
        if k > 0 {
          assert ExcludedValues(args)[k] == ExcludedValues(args[2..])[k - 1];
        }
      }
    }
  }

  /** The pairs hold nothing but the flag and the caller's excludes. */
  lemma {:induction false} ExcludeArgsMembers(exclude: seq<string>)
    ensures forall x :: x in ExcludeArgs(exclude) ==> x == "--exclude" || x in exclude
  {
    if |exclude| > 0 {
      var init := exclude[..|exclude| - 1];
      ExcludeArgsMembers(init);
      assert forall x :: x in init ==> x in exclude;
    }
  }

  /** Lines 16-19: the options a dry run and a real run start with. */
  function RsyncHeader(dryRun: bool): seq<string> {
    if dryRun then ["rsync", "-aic", "--delete"]
    else ["rsync", "-avzic", "--progress", "--delete"]
  }

  /** Lines 22-23: `--filter` with a per-directory merge rule, when a
      filter file is given. */
  function FilterArgs(filter: Option<string>): seq<string> {
    match filter
    case None => []
    case Some(f) => ["--filter", ":- " + f]
  }

  /** Lines 24-25. */
  function DryRunArgs(dryRun: bool): seq<string> {
    if dryRun then ["--dry-run"] else []
  }

  /** The list `build_rsync_command` returns (lines 15-27). */
  function RsyncCommand(src: string, dest: string, exclude: seq<string>,
                        filter: Option<string>, dryRun: bool): seq<string>
  {
    RsyncHeader(dryRun) + ExcludeArgs(exclude) + FilterArgs(filter)
      + DryRunArgs(dryRun) + [src, dest]
  }

  /** The list `build_fswatch_command` returns (lines 29-34). */
  function FswatchCommand(src: string, exclude: seq<string>): seq<string> {
    ["fswatch", "--recursive"] + ExcludeArgs(exclude) + [src]
  }

  /** One turn of the exclude loops: the list grows by one pair. */
  lemma ExcludeArgsStep(exclude: seq<string>, k: nat)
    requires k < |exclude|
    ensures ExcludeArgs(exclude[..k + 1]) == ExcludeArgs(exclude[..k]) + ["--exclude", exclude[k]]
  {
    assert exclude[..k + 1][..k] == exclude[..k];
  }

  /** The loops of lines 20-21 and 31-32: one `--exclude` pair appended
      per exclude, in order. */
  method AppendExcludes(command0: seq<string>, exclude: seq<string>) returns (command: seq<string>)
    ensures command == command0 + ExcludeArgs(exclude)
  {
    command := command0;
    for k := 0 to |exclude|
      invariant command == command0 + ExcludeArgs(exclude[..k])
    {
      ExcludeArgsStep(exclude, k);
      command := command + ["--exclude", exclude[k]];
    }
    assert exclude[..|exclude|] == exclude;
  }

  method BuildRsyncCommand(src: string, dest: string, exclude: seq<string>,
                           filter: Option<string>, dryRun: bool)
    returns (command: seq<string>)
    ensures command == RsyncCommand(src, dest, exclude, filter, dryRun)
  {
    if dryRun {
      command := ["rsync", "-aic", "--delete"];
    } else {
      command := ["rsync", "-avzic", "--progress", "--delete"];
    }
    command := AppendExcludes(command, exclude);
    if filter.Some? {
      command := command + ["--filter", ":- " + filter.value];
    }
    if dryRun {
      command := command + ["--dry-run"];
    }
    command := command + [src, dest];
  }

  method BuildFswatchCommand(src: string, exclude: seq<string>) returns (command: seq<string>)
    ensures command == FswatchCommand(src, exclude)
  {
    command := ["fswatch", "--recursive"];
    command := AppendExcludes(command, exclude);
    command := command + [src];
  }

  /** Where everything sits in an rsync command: the header of 3 (dry run)
      or 4 arguments, then the `--exclude` pairs in order, then `--filter`
      exactly when a filter is given, then `--dry-run` exactly on a dry
      run, then the source and the destination, which end the list. */
  lemma RsyncCommandLayout(src: string, dest: string, exclude: seq<string>,
                           filter: Option<string>, dryRun: bool)
    ensures var c := RsyncCommand(src, dest, exclude, filter, dryRun);
      var h := if dryRun then 3 else 4;
      var f := if filter.Some? then 2 else 0;
      && |c| == h + 2 * |exclude| + f + (if dryRun then 1 else 0) + 2
      && c[..h] == RsyncHeader(dryRun)
      && (forall k :: 0 <= k < |exclude| ==>
            c[h + 2 * k] == "--exclude" && c[h + 2 * k + 1] == exclude[k])
      && (filter.Some? ==> c[h + 2 * |exclude|] == "--filter"
                           && c[h + 2 * |exclude| + 1] == ":- " + filter.value)
      && (dryRun ==> c[|c| - 3] == "--dry-run")
      && c[|c| - 2] == src && c[|c| - 1] == dest
  {
    var c := RsyncCommand(src, dest, exclude, filter, dryRun);
    var h := if dryRun then 3 else 4;
    var e := ExcludeArgs(exclude);
    var head := RsyncHeader(dryRun);
    assert c == head + e + FilterArgs(filter) + DryRunArgs(dryRun) + [src, dest];
    assert |head| == h;
    forall k | 0 <= k < |exclude|
      ensures c[h + 2 * k] == "--exclude" && c[h + 2 * k + 1] == exclude[k]
    {
      assert c[h + 2 * k] == e[2 * k];
      assert c[h + 2 * k + 1] == e[2 * k + 1];
    }
  }

  /** Neither header mentions `--dry-run`, and the `--filter` value starts
      with `:`; so a real run carries no `--dry-run` unless one of the
      caller's own strings is `--dry-run`. */
  lemma RealRunHasNoDryRun(src: string, dest: string, exclude: seq<string>, filter: Option<string>)
    requires "--dry-run" !in exclude && src != "--dry-run" && dest != "--dry-run"
    ensures "--dry-run" !in RsyncCommand(src, dest, exclude, filter, false)
  {
    ExcludeArgsMembers(exclude);
    if filter.Some? {
      assert (":- " + filter.value)[0] == ':';
    }
  }

  /** The fswatch command: `fswatch --recursive`, the `--exclude` pairs in
      order, then the watched folder, `3 + 2 * |exclude|` arguments in all. */
  lemma FswatchCommandLayout(src: string, exclude: seq<string>)
    ensures var c := FswatchCommand(src, exclude);
      && |c| == 3 + 2 * |exclude|
      && c[0] == "fswatch" && c[1] == "--recursive"
      && (forall k :: 0 <= k < |exclude| ==>
            c[2 + 2 * k] == "--exclude" && c[2 + 2 * k + 1] == exclude[k])
      && c[|c| - 1] == src
  {
    var c := FswatchCommand(src, exclude);
    var e := ExcludeArgs(exclude);
    forall k | 0 <= k < |exclude|
      ensures c[2 + 2 * k] == "--exclude" && c[2 + 2 * k + 1] == exclude[k]
    {
      assert c[2 + 2 * k] == e[2 * k];
      assert c[2 + 2 * k + 1] == e[2 * k + 1];
    }
  }
}
