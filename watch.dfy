/** The watch loop of `run_fswatch` (workonsh/main.py:37-46): fswatch
    reports changes one line at a time, and each report starts a real rsync
    from the source to the destination unless the last one started less
    than `rsync_interval` seconds ago.

    The clock (`time.time()`) is an input: each reported change carries the
    reading taken when the change is examined (line 43) and the reading
    taken once rsync has returned (line 46), which is used only if rsync
    ran.  `LastSynced` and `Fires` state the debounce rule over those
    readings; `RunFswatch` is the loop, proved to follow it. */
module Watch {
  import opened PyText
  import opened Commands

  /** One change reported by fswatch, as the loop sees the clock. */
  datatype Event = Event(seen: real, synced: real)

  /** `last_rsynced` after the loop has examined `events`: the reading taken
      at the start (line 38), replaced after each sync (line 46). */
  function LastSynced(start: real, events: seq<Event>, interval: real): real {
    if |events| == 0 then start
    else
      var last := LastSynced(start, events[..|events| - 1], interval);
      var e := events[|events| - 1];
      if e.seen - last >= interval then e.synced else last
  }

  /** For each change, whether it starts a sync (line 43). */
  function Fires(start: real, events: seq<Event>, interval: real): (fires: seq<bool>)
    ensures |fires| == |events|
  {
    if |events| == 0 then []
    else
      var init := events[..|events| - 1];
      Fires(start, init, interval)
        + [events[|events| - 1].seen - LastSynced(start, init, interval) >= interval]
  }

  /** The number of syncs. */
  function Count(fires: seq<bool>): nat {
    if |fires| == 0 then 0
    else Count(fires[..|fires| - 1]) + (if fires[|fires| - 1] then 1 else 0)
  }

  /** A change starts a sync exactly when at least `interval` seconds have
      passed since the last sync, or since the loop began if none has run. */
  lemma {:induction false} FiresIff(start: real, events: seq<Event>, interval: real, k: nat)
    requires k < |events|
    ensures Fires(start, events, interval)[k]
        <==> events[k].seen - LastSynced(start, events[..k], interval) >= interval
  {
    var init := events[..|events| - 1];
    if k < |events| - 1 {
      FiresIff(start, init, interval, k);
      assert init[..k] == events[..k];
    }
  }

  /** Never more syncs than reported changes. */
  lemma {:induction false} SyncsAtMostEvents(start: real, events: seq<Event>, interval: real)
    ensures Count(Fires(start, events, interval)) <= |events|
  {
    if |events| > 0 {
      var fires := Fires(start, events, interval);
      var init := events[..|events| - 1];
      SyncsAtMostEvents(start, init, interval);
      assert fires[..|fires| - 1] == Fires(start, init, interval);
    }
  }

  /** The clock as the loop reads it never goes back: every reading is at
      least the one taken before it. */
  ghost predicate Monotone(start: real, events: seq<Event>) {
    && (forall i :: 0 <= i < |events| ==> start <= events[i].seen <= events[i].synced)
    && (forall i, j :: 0 <= i < j < |events| ==> events[i].synced <= events[j].seen)
  }

  /** Once change `j` has synced, `last_rsynced` is never older than the
      reading taken after that sync. */
  lemma {:induction false} LastSyncedAfterSync(start: real, events: seq<Event>, interval: real, j: nat, k: nat)
    requires Monotone(start, events)
    requires j < k <= |events| && Fires(start, events, interval)[j]
    ensures LastSynced(start, events[..k], interval) >= events[j].synced
  {
    FiresIff(start, events, interval, j);
    var prefix := events[..k];
    assert prefix[..k - 1] == events[..k - 1];
    if k == j + 1 {
      assert prefix[k - 1] == events[j];
    } else {
      LastSyncedAfterSync(start, events, interval, j, k - 1);
    }
  }

  /** With a clock that does not go back, two syncs are at least `interval`
      seconds apart, measured from the end of the earlier sync to the check
      that starts the later one, and so also between the two checks. */
  lemma SyncSpacing(start: real, events: seq<Event>, interval: real, j: nat, k: nat)
    requires Monotone(start, events)
    requires j < k < |events|
    requires Fires(start, events, interval)[j] && Fires(start, events, interval)[k]
    ensures events[k].seen - events[j].synced >= interval
    ensures events[k].seen - events[j].seen >= interval
  {
    FiresIff(start, events, interval, k);
    LastSyncedAfterSync(start, events, interval, j, k);
  }

  /** One turn of the loop, seen through the prefix functions. */
  lemma Step(start: real, events: seq<Event>, interval: real, k: nat)
    requires k < |events|
    ensures var fire := events[k].seen - LastSynced(start, events[..k], interval) >= interval;
      && Fires(start, events[..k + 1], interval) == Fires(start, events[..k], interval) + [fire]
      && LastSynced(start, events[..k + 1], interval)
         == (if fire then events[k].synced else LastSynced(start, events[..k], interval))
  {
    assert events[..k + 1][..k] == events[..k];
  }

  /** Lines 43-46 for one reported change: whether it starts a sync, the
      rsync command it runs if so, and `last_rsynced` afterwards. */
  method OnChange(src: string, dest: string, exclude: seq<string>, filter: Option<string>,
                  e: Event, lastRsynced0: real, interval: real)
    returns (fire: bool, commands: seq<seq<string>>, lastRsynced: real)
    ensures fire <==> e.seen - lastRsynced0 >= interval
    ensures commands == if fire then [RsyncCommand(src, dest, exclude, filter, false)] else []
    ensures lastRsynced == if fire then e.synced else lastRsynced0
  {
    fire := e.seen - lastRsynced0 >= interval;
    commands, lastRsynced := [], lastRsynced0;
    if fire {
      var command := BuildRsyncCommand(src, dest, exclude, filter, false);
      commands, lastRsynced := [command], e.synced;
    }
  }

  /** `run_fswatch`: the fswatch command it starts, whether each reported
      change started a sync, and the rsync command of every sync, which is
      always a real run from `src` to `dest` with the literal excludes. */
  method RunFswatch(src: string, dest: string, exclude: seq<string>, filter: Option<string>,
                    excludeWithFilter: seq<string>, start: real, events: seq<Event>,
                    interval: real)
    returns (watch: seq<string>, fires: seq<bool>, runs: seq<seq<string>>)
    ensures watch == FswatchCommand(src, excludeWithFilter)
    ensures fires == Fires(start, events, interval)
    ensures |runs| == Count(fires)
    ensures forall r :: r in runs ==> r == RsyncCommand(src, dest, exclude, filter, false)
  {
    watch := BuildFswatchCommand(src, excludeWithFilter);
    var lastRsynced := start;
    fires, runs := [], [];
    for k := 0 to |events|
      invariant fires == Fires(start, events[..k], interval)
      invariant lastRsynced == LastSynced(start, events[..k], interval)
      invariant |runs| == Count(fires)
      invariant forall r :: r in runs ==> r == RsyncCommand(src, dest, exclude, filter, false)
    {
      Step(start, events, interval, k);
      var fire, commands;
      fire, commands, lastRsynced := OnChange(src, dest, exclude, filter, events[k], lastRsynced, interval);
      runs := runs + commands;
      assert (fires + [fire])[..|fires|] == fires;
      fires := fires + [fire];
    }
    assert events[..|events|] == events;
  }
}
