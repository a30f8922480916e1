/** What syncing the bundled plugins reaches: the bundled records are those of the bundled
    directory, a second sync has nothing to do, and external plugins are left alone. */
module PluginSyncFixpoint {
  import opened Text
  import opened Plugins
  import opened PluginSync

  /** The bundled directories `names` hold the valid manifests `ms`. */
  predicate Sources(load: Loader, c: Config, files: Files, names: seq<string>, ms: seq<Manifest>) {
    && |ms| == |names|
    && forall i :: 0 <= i < |names| ==> LoadAt(load, files, Path(c.bundledRoot, names[i])) == Ok(ms[i])
  }

  /** A copy of a bundled directory still validates where it is installed. */
  predicate KeepsValid(load: Loader, c: Config, files: Files, names: seq<string>, ms: seq<Manifest>)
    requires Sources(load, c, files, names, ms)
  {
    forall i :: 0 <= i < |names| ==> load(Target(c, ms[i]), files[Path(c.bundledRoot, names[i])]).Ok?
  }

  function Ids(ms: seq<Manifest>, n: nat): set<string>
    requires n <= |ms|
  {
    set i | 0 <= i < n :: BundledId(ms[i])
  }

  /** Bundled directories that share a plugin name agree on version and description. */
  predicate Consistent(ms: seq<Manifest>) {
    forall i, j :: 0 <= i < |ms| && 0 <= j < |ms| && BundledId(ms[i]) == BundledId(ms[j]) ==>
                     ms[i].version == ms[j].version && ms[i].description == ms[j].description
  }

  /** No bundled plugin that is gone was installed where a present one goes. */
  predicate NoStaleClash(c: Config, records: Records, ms: seq<Manifest>) {
    forall id, i :: id in records && records[id].kind == Bundled && id !in Ids(ms, |ms|) && 0 <= i < |ms| ==>
                      records[id].installPath != Target(c, ms[i])
  }

  /** Nor is one recorded as installed in a directory of the bundled root that is in use. */
  predicate NoStaleSource(c: Config, records: Records, names: seq<string>, ms: seq<Manifest>) {
    forall id, i :: id in records && records[id].kind == Bundled && id !in Ids(ms, |ms|) && 0 <= i < |names| ==>
                      records[id].installPath != Path(c.bundledRoot, names[i])
  }

  // ---------- The loop ----------

  ghost predicate Installed(c: Config, p: Progress, m: Manifest) {
    var id := BundledId(m);
    && id in p.records && p.records[id].kind == Bundled && p.records[id].name == m.name
    && p.records[id].installPath == Target(c, m) && Target(c, m) in p.files
  }

  /** The installed copies of the first `n` plugins validate. */
  predicate CopiesLoad(load: Loader, c: Config, files: Files, ms: seq<Manifest>, n: nat)
    requires n <= |ms|
  {
    forall i :: 0 <= i < n ==> LoadAt(load, files, Target(c, ms[i])).Ok?
  }

  ghost predicate Current(p: Progress, m: Manifest) {
    var id := BundledId(m);
    id in p.records && p.records[id].version == m.version && p.records[id].description == m.description
  }

  ghost predicate Elsewhere(p: Progress, records: Records, id: string) {
    (id in p.records <==> id in records) && (id in records ==> p.records[id] == records[id])
  }

  ghost predicate LoopInvariant(load: Loader, c: Config, p: Progress, records: Records, names: seq<string>,
                                ms: seq<Manifest>, n: nat)
    requires n <= |ms|
  {
    && Sources(load, c, p.files, names, ms) && p.active == Ids(ms, n)
    && (forall j :: 0 <= j < n ==> Installed(c, p, ms[j]))
    && (Consistent(ms) ==> forall j :: 0 <= j < n ==> Current(p, ms[j]))
    && (forall id :: id !in p.active ==> Elsewhere(p, records, id))
  }

  /** Files of the bundled directory survive what is done to the installed copies. */
  lemma {:induction false} SourcesKept(load: Loader, c: Config, files: Files, after: Files, names: seq<string>,
                                       ms: seq<Manifest>)
    requires Sources(load, c, files, names, ms)
    requires forall n :: n in names && Path(c.bundledRoot, n) in files ==>
                           && Path(c.bundledRoot, n) in after
                           && after[Path(c.bundledRoot, n)] == files[Path(c.bundledRoot, n)]
    ensures Sources(load, c, after, names, ms)
    ensures KeepsValid(load, c, files, names, ms) <==> KeepsValid(load, c, after, names, ms)
  {
    forall i | 0 <= i < |names|
      ensures LoadAt(load, after, Path(c.bundledRoot, names[i])) == Ok(ms[i])
      ensures after[Path(c.bundledRoot, names[i])] == files[Path(c.bundledRoot, names[i])]
    {
      assert LoadAt(load, files, Path(c.bundledRoot, names[i])) == Ok(ms[i]);
    }
  }

  lemma {:induction false} OneInstalled(load: Loader, c: Config, p: Progress, m: Manifest, source: Path, now: nat,
                                        other: Manifest)
    requires source in p.files && source != Target(c, m)
    ensures Installed(c, SyncOne(load, c, p, m, source, now), m)
    ensures Current(SyncOne(load, c, p, m, source, now), m)
    ensures Installed(c, p, other) ==> Installed(c, SyncOne(load, c, p, m, source, now), other)
    ensures Current(p, other) && BundledId(other) != BundledId(m) ==>
              Current(SyncOne(load, c, p, m, source, now), other)
  {
    if BundledId(other) == BundledId(m) {
      IdInjective(other.name, m.name, BUNDLED);
    }
  }

  lemma {:induction false} IdsGrow(ms: seq<Manifest>, n: nat)
    requires n < |ms|
    ensures Ids(ms, n + 1) == Ids(ms, n) + {BundledId(ms[n])}
  {
  }

  lemma {:induction false} LoopStep(load: Loader, c: Config, p: Progress, records: Records, names: seq<string>,
                                    ms: seq<Manifest>, n: nat, now: nat)
    requires c.installRoot != c.bundledRoot
    requires n < |ms| && LoopInvariant(load, c, p, records, names, ms, n)
    ensures Path(c.bundledRoot, names[n]) in p.files
    ensures LoopInvariant(load, c, SyncOne(load, c, p, ms[n], Path(c.bundledRoot, names[n]), now),
                          records, names, ms, n + 1)
  {
    var source := Path(c.bundledRoot, names[n]);
    var m := ms[n];
    assert LoadAt(load, p.files, source) == Ok(m);
    var q := SyncOne(load, c, p, m, source, now);
    SourcesKept(load, c, p.files, q.files, names, ms);
    IdsGrow(ms, n);
    AllInstalled(load, c, p, ms, n, source, now);
    forall id | id !in q.active ensures Elsewhere(q, records, id) {
      OthersKept(load, c, p, records, m, source, now, id);
    }
  }

  lemma {:induction false} AllInstalled(load: Loader, c: Config, p: Progress, ms: seq<Manifest>, n: nat,
                                        source: Path, now: nat)
    requires n < |ms| && source in p.files && source != Target(c, ms[n])
    requires forall j :: 0 <= j < n ==> Installed(c, p, ms[j])
    requires Consistent(ms) ==> forall j :: 0 <= j < n ==> Current(p, ms[j])
    ensures var q := SyncOne(load, c, p, ms[n], source, now);
            && (forall j :: 0 <= j < n + 1 ==> Installed(c, q, ms[j]))
            && (Consistent(ms) ==> forall j :: 0 <= j < n + 1 ==> Current(q, ms[j]))
  {
    var q := SyncOne(load, c, p, ms[n], source, now);
    forall j | 0 <= j < n + 1
      ensures Installed(c, q, ms[j])
      ensures Consistent(ms) ==> Current(q, ms[j])
    {
      OneInstalled(load, c, p, ms[n], source, now, ms[j]);
      if j < n {
        assert Installed(c, p, ms[j]);
        assert Consistent(ms) ==> Current(p, ms[j]);
      }
    }
  }

  lemma {:induction false} OthersKept(load: Loader, c: Config, p: Progress, records: Records, m: Manifest,
                                      source: Path, now: nat, id: string)
    requires source in p.files && id != BundledId(m) && Elsewhere(p, records, id)
    ensures Elsewhere(SyncOne(load, c, p, m, source, now), records, id)
  {
  }

  lemma {:induction false} LoopReaches(load: Loader, c: Config, p: Progress, records: Records, names: seq<string>,
                                       ms: seq<Manifest>, clock: nat -> nat, n: nat)
    requires c.installRoot != c.bundledRoot
    requires n <= |ms| && LoopInvariant(load, c, p, records, names, ms, n)
    ensures var out := SyncFrom(load, c, p, names, clock, n);
            out.error == None && LoopInvariant(load, c, out.progress, records, names, ms, |ms|)
    decreases |ms| - n
  {
    if n < |ms| {
      LoopStep(load, c, p, records, names, ms, n, clock(n));
      assert LoadAt(load, p.files, Path(c.bundledRoot, names[n])) == Ok(ms[n]);
      SyncStep(load, c, p, names, clock, n, ms[n]);
      LoopReaches(load, c, SyncOne(load, c, p, ms[n], Path(c.bundledRoot, names[n]), clock(n)),
                  records, names, ms, clock, n + 1);
    }
  }

  lemma {:induction false} CopyLoads(load: Loader, c: Config, p: Progress, names: seq<string>, ms: seq<Manifest>,
                                     n: nat, now: nat)
    requires c.installRoot != c.bundledRoot && n < |ms| && Sources(load, c, p.files, names, ms)
    requires KeepsValid(load, c, p.files, names, ms) && CopiesLoad(load, c, p.files, ms, n)
    ensures LoadAt(load, p.files, Path(c.bundledRoot, names[n])) == Ok(ms[n])
    ensures var q := SyncOne(load, c, p, ms[n], Path(c.bundledRoot, names[n]), now);
            CopiesLoad(load, c, q.files, ms, n + 1)
  {
    assert LoadAt(load, p.files, Path(c.bundledRoot, names[n])) == Ok(ms[n]);
    assert load(Target(c, ms[n]), p.files[Path(c.bundledRoot, names[n])]).Ok?;
  }

  lemma {:induction false} LoopLoads(load: Loader, c: Config, p: Progress, names: seq<string>, ms: seq<Manifest>,
                                     clock: nat -> nat, n: nat)
    requires c.installRoot != c.bundledRoot && n <= |ms| && Sources(load, c, p.files, names, ms)
    requires KeepsValid(load, c, p.files, names, ms) && CopiesLoad(load, c, p.files, ms, n)
    ensures CopiesLoad(load, c, SyncFrom(load, c, p, names, clock, n).progress.files, ms, |ms|)
    decreases |ms| - n
  {
    if n < |ms| {
      CopyLoads(load, c, p, names, ms, n, clock(n));
      SyncStep(load, c, p, names, clock, n, ms[n]);
      var q := SyncOne(load, c, p, ms[n], Path(c.bundledRoot, names[n]), clock(n));
      SourcesKept(load, c, p.files, q.files, names, ms);
      LoopLoads(load, c, q, names, ms, clock, n + 1);
    }
  }

  // ---------- When there is nothing to do ----------

  /** Nothing to copy, to record or to prune. */
  ghost predicate Settled(load: Loader, c: Config, files: Files, records: Records, ms: seq<Manifest>) {
    && (forall i :: 0 <= i < |ms| ==> UpToDate(load, c, files, records, ms[i]))
    && (forall id :: id in records && records[id].kind == Bundled ==> id in Ids(ms, |ms|))
  }

  /** A sync of `disk` changes nothing: no copy, no record, no write of the registry. */
  predicate Idle(load: Loader, c: Config, disk: Disk, names: seq<string>, clock: nat -> nat)
    requires LoadRegistry(disk.registry).Ok?
  {
    var start := Progress(disk.files, LoadRegistry(disk.registry).value, {}, false);
    !Pruned(SyncFrom(load, c, start, names, clock, 0).progress).changed
  }

  lemma {:induction false} LoopIdle(load: Loader, c: Config, p: Progress, names: seq<string>,
                                    ms: seq<Manifest>, clock: nat -> nat, n: nat)
    requires n <= |ms| && Sources(load, c, p.files, names, ms) && p.active == Ids(ms, n)
    requires forall i :: n <= i < |ms| ==> UpToDate(load, c, p.files, p.records, ms[i])
    ensures SyncFrom(load, c, p, names, clock, n) == Outcome(p.(active := Ids(ms, |ms|)), None)
    decreases |ms| - n
  {
    if n < |ms| {
      assert LoadAt(load, p.files, Path(c.bundledRoot, names[n])) == Ok(ms[n]);
      IdsGrow(ms, n);
      SyncStep(load, c, p, names, clock, n, ms[n]);
      LoopIdle(load, c, p.(active := Ids(ms, n + 1)), names, ms, clock, n + 1);
    }
  }

  lemma {:induction false} LoopBusy(load: Loader, c: Config, p: Progress, names: seq<string>,
                                    ms: seq<Manifest>, clock: nat -> nat, n: nat, i: nat)
    requires n <= i < |ms| && Sources(load, c, p.files, names, ms)
    requires !UpToDate(load, c, p.files, p.records, ms[i])
    ensures SyncFrom(load, c, p, names, clock, n).progress.changed
    decreases i - n
  {
    var source := Path(c.bundledRoot, names[n]);
    assert LoadAt(load, p.files, source) == Ok(ms[n]);
    SyncStep(load, c, p, names, clock, n, ms[n]);
    var q := SyncOne(load, c, p, ms[n], source, clock(n));
    if UpToDate(load, c, p.files, p.records, ms[n]) {
      LoopBusy(load, c, q, names, ms, clock, n + 1, i);
    } else {
      StaysChanged(load, c, q, names, clock, n + 1);
    }
  }

  lemma {:induction false} StaysChanged(load: Loader, c: Config, p: Progress, names: seq<string>,
                                        clock: nat -> nat, n: nat)
    requires n <= |names| && p.changed
    ensures SyncFrom(load, c, p, names, clock, n).progress.changed
    decreases |names| - n
  {
    if n < |names| {
      var source := Path(c.bundledRoot, names[n]);
      var loaded := LoadAt(load, p.files, source);
      if loaded.Ok? {
        SyncStep(load, c, p, names, clock, n, loaded.value);
        StaysChanged(load, c, SyncOne(load, c, p, loaded.value, source, clock(n)), names, clock, n + 1);
      }
    }
  }

  lemma {:induction false} IdleIsSettled(load: Loader, c: Config, disk: Disk, names: seq<string>, ms: seq<Manifest>,
                                         clock: nat -> nat)
    requires LoadRegistry(disk.registry).Ok? && Sources(load, c, disk.files, names, ms)
    ensures Idle(load, c, disk, names, clock) <==>
            Settled(load, c, disk.files, LoadRegistry(disk.registry).value, ms)
    ensures Idle(load, c, disk, names, clock) ==> Sync(load, c, disk, Found(names), clock) == Synced(disk, None)
  {
    var records := LoadRegistry(disk.registry).value;
    var start := Progress(disk.files, records, {}, false);
    assert Ids(ms, 0) == {};
    if i: nat :| i < |ms| && !UpToDate(load, c, disk.files, records, ms[i]) {
      LoopBusy(load, c, start, names, ms, clock, 0, i);
    } else {
      var q := start.(active := Ids(ms, |ms|));
      LoopIdle(load, c, start, names, ms, clock, 0);
      NoneStale(q);
      if StaleIds(q) == {} {
        PrunedIdle(q);
      }
    }
  }

  lemma {:induction false} NoneStale(p: Progress)
    ensures StaleIds(p) == {} <==> forall id :: id in p.records && p.records[id].kind == Bundled ==> id in p.active
  {
    if id :| id in p.records && p.records[id].kind == Bundled && id !in p.active {
      assert id in StaleIds(p);
    }
  }

  lemma {:induction false} PrunedIdle(p: Progress)
    requires StaleIds(p) == {}
    ensures Pruned(p) == p
  {
    assert PathsOf(p.records, {}) == {};
    assert p.files - {} == p.files && p.records - {} == p.records;
  }

  // ---------- The theorems ----------

  /** After a sync, the bundled records are exactly those of the bundled plugins; and if no stale
      plugin was installed where a present one goes, each has its copy, which validates if
      copies keep valid. */
  lemma {:induction false} SyncReaches(load: Loader, c: Config, disk: Disk, names: seq<string>, ms: seq<Manifest>,
                                       clock: nat -> nat)
    requires c.installRoot != c.bundledRoot && LoadRegistry(disk.registry).Ok?
    requires Sources(load, c, disk.files, names, ms)
    ensures var out := Sync(load, c, disk, Found(names), clock);
            var records := LoadRegistry(out.disk.registry);
            && out.result == None && records.Ok?
            && (forall id :: id in records.value && records.value[id].kind == Bundled <==> id in Ids(ms, |ms|))
            && (NoStaleClash(c, LoadRegistry(disk.registry).value, ms) ==>
                && (forall i :: 0 <= i < |ms| ==>
                                  Installed(c, Progress(out.disk.files, records.value, {}, false), ms[i]))
                && (KeepsValid(load, c, disk.files, names, ms) ==> CopiesLoad(load, c, out.disk.files, ms, |ms|)))
  {
    var records := LoadRegistry(disk.registry).value;
    var p, q := Looped(load, c, disk, names, ms, clock);
    if NoStaleClash(c, records, ms) {
      forall i: nat | i < |ms| ensures Installed(c, q, ms[i]) {
        assert Installed(c, p, ms[i]);
        TargetSurvives(load, c, p, records, names, ms, i);
      }
    }
    CopiesSurvive(load, c, disk.files, p, records, names, ms, clock);
  }

  /** The copies that validate after the loop and were not removed with a stale record. */
  lemma {:induction false} CopiesSurvive(load: Loader, c: Config, files: Files, p: Progress, records: Records,
                                         names: seq<string>, ms: seq<Manifest>, clock: nat -> nat)
    requires c.installRoot != c.bundledRoot && Sources(load, c, files, names, ms)
    requires p == SyncFrom(load, c, Progress(files, records, {}, false), names, clock, 0).progress
    requires LoopInvariant(load, c, p, records, names, ms, |ms|)
    ensures CopiesLoad(load, c, Pruned(p).files, ms, |ms|) ==> NoStaleClash(c, records, ms)
    ensures KeepsValid(load, c, files, names, ms) && NoStaleClash(c, records, ms) ==>
              CopiesLoad(load, c, Pruned(p).files, ms, |ms|)
  {
    if KeepsValid(load, c, files, names, ms) {
      LoopLoads(load, c, Progress(files, records, {}, false), names, ms, clock, 0);
    }
    forall i: nat | i < |ms|
      ensures Target(c, ms[i]) in Pruned(p).files <==> ClashFree(c, records, ms, i)
      ensures Target(c, ms[i]) in Pruned(p).files ==>
                LoadAt(load, Pruned(p).files, Target(c, ms[i])) == LoadAt(load, p.files, Target(c, ms[i]))
    {
      assert Installed(c, p, ms[i]);
      TargetSurvives(load, c, p, records, names, ms, i);
    }
    ClashFreeAll(c, records, ms);
  }

  /** No stale plugin was installed where the `i`-th goes. */
  predicate ClashFree(c: Config, records: Records, ms: seq<Manifest>, i: nat)
    requires i < |ms|
  {
    forall id :: id in records && records[id].kind == Bundled && id !in Ids(ms, |ms|) ==>
                   records[id].installPath != Target(c, ms[i])
  }

  lemma {:induction false} ClashFreeAll(c: Config, records: Records, ms: seq<Manifest>)
    ensures NoStaleClash(c, records, ms) <==> forall i: nat :: i < |ms| ==> ClashFree(c, records, ms, i)
  {
    if id, i :| id in records && records[id].kind == Bundled && id !in Ids(ms, |ms|) && 0 <= i < |ms|
                && records[id].installPath == Target(c, ms[i]) {
      assert !ClashFree(c, records, ms, i);
    }
  }

  lemma {:induction false} Looped(load: Loader, c: Config, disk: Disk, names: seq<string>, ms: seq<Manifest>,
                                  clock: nat -> nat)
    returns (p: Progress, q: Progress)
    requires c.installRoot != c.bundledRoot && LoadRegistry(disk.registry).Ok?
    requires Sources(load, c, disk.files, names, ms)
    ensures LoopInvariant(load, c, p, LoadRegistry(disk.registry).value, names, ms, |ms|)
    ensures p == SyncFrom(load, c, Progress(disk.files, LoadRegistry(disk.registry).value, {}, false),
                          names, clock, 0).progress
    ensures q == Pruned(p) && Sync(load, c, disk, Found(names), clock).result == None
    ensures var out := Sync(load, c, disk, Found(names), clock).disk;
            out.files == q.files && LoadRegistry(out.registry) == Ok(q.records)
    ensures forall id :: id in q.records && q.records[id].kind == Bundled <==> id in Ids(ms, |ms|)
  {
    var records := LoadRegistry(disk.registry).value;
    var start := Progress(disk.files, records, {}, false);
    assert Ids(ms, 0) == {};
    LoopReaches(load, c, start, records, names, ms, clock, 0);
    p := SyncFrom(load, c, start, names, clock, 0).progress;
    q := Pruned(p);
    UnchangedSame(load, c, start, names, clock, 0);
    if !q.changed {
      PrunedIdle(p);
    }
    RecordsReached(load, c, p, records, names, ms);
  }

  lemma {:induction false} RecordsReached(load: Loader, c: Config, p: Progress, records: Records, names: seq<string>,
                                          ms: seq<Manifest>)
    requires LoopInvariant(load, c, p, records, names, ms, |ms|)
    ensures var q := Pruned(p);
            forall id :: id in q.records && q.records[id].kind == Bundled <==> id in Ids(ms, |ms|)
  {
    var q := Pruned(p);
    forall id ensures id in q.records && q.records[id].kind == Bundled <==> id in Ids(ms, |ms|) {
      if id in Ids(ms, |ms|) {
        var i :| 0 <= i < |ms| && id == BundledId(ms[i]);
        assert Installed(c, p, ms[i]);
      }
    }
  }

  lemma {:induction false} UnchangedSame(load: Loader, c: Config, p: Progress, names: seq<string>,
                                         clock: nat -> nat, n: nat)
    requires n <= |names|
    ensures var q := SyncFrom(load, c, p, names, clock, n).progress;
            !q.changed ==> q.files == p.files && q.records == p.records
    decreases |names| - n
  {
    if n < |names| {
      var source := Path(c.bundledRoot, names[n]);
      var loaded := LoadAt(load, p.files, source);
      if loaded.Ok? {
        SyncStep(load, c, p, names, clock, n, loaded.value);
        var q := SyncOne(load, c, p, loaded.value, source, clock(n));
        if q.changed && !p.changed {
          StaysChanged(load, c, q, names, clock, n + 1);
        } else {
          if p.changed { StaysChanged(load, c, p, names, clock, n); }
          UnchangedSame(load, c, q, names, clock, n + 1);
        }
      }
    }
  }

  lemma {:induction false} TargetSurvives(load: Loader, c: Config, p: Progress, records: Records, names: seq<string>,
                                          ms: seq<Manifest>, i: nat)
    requires i < |ms| && LoopInvariant(load, c, p, records, names, ms, |ms|)
    ensures Target(c, ms[i]) in Pruned(p).files <==>
            forall id :: id in records && records[id].kind == Bundled && id !in Ids(ms, |ms|) ==>
                           records[id].installPath != Target(c, ms[i])
    ensures Target(c, ms[i]) in Pruned(p).files ==>
            Pruned(p).files[Target(c, ms[i])] == p.files[Target(c, ms[i])]
  {
    assert Installed(c, p, ms[i]);
    forall id | id !in p.active ensures Elsewhere(p, records, id) {
    }
    if Target(c, ms[i]) !in Pruned(p).files {
      var id :| id in StaleIds(p) && p.records[id].installPath == Target(c, ms[i]);
      assert Elsewhere(p, records, id);
    } else {
      forall id | id in records && records[id].kind == Bundled && id !in Ids(ms, |ms|)
        ensures records[id].installPath != Target(c, ms[i])
      {
        assert Elsewhere(p, records, id);
        assert id in StaleIds(p);
        assert p.records[id].installPath in PathsOf(p.records, StaleIds(p));
      }
    }
  }

  /** The bundled directories survive a sync exactly when no stale record is installed in one of
      them. Then a second sync has nothing to do exactly when the bundled plugins are
      consistent and all their copies validate, which if copies keep valid means that no stale
      one clashed with them; and then it changes neither files nor registry. */
  lemma {:induction false} SecondSync(load: Loader, c: Config, disk: Disk, names: seq<string>, ms: seq<Manifest>,
                                      clock: nat -> nat, later: nat -> nat)
    requires c.installRoot != c.bundledRoot && LoadRegistry(disk.registry).Ok?
    requires Sources(load, c, disk.files, names, ms)
    ensures var out := Sync(load, c, disk, Found(names), clock);
            var records := LoadRegistry(disk.registry).value;
            var valid := CopiesLoad(load, c, out.disk.files, ms, |ms|);
            && out.result == None && LoadRegistry(out.disk.registry).Ok?
            && (valid ==> NoStaleClash(c, records, ms))
            && (KeepsValid(load, c, disk.files, names, ms) && NoStaleClash(c, records, ms) ==> valid)
            && (Sources(load, c, out.disk.files, names, ms) <==> NoStaleSource(c, records, names, ms))
            && (NoStaleSource(c, records, names, ms) ==>
                && (Idle(load, c, out.disk, names, later) <==> Consistent(ms) && valid)
                && (Consistent(ms) && valid ==>
                    Sync(load, c, out.disk, Found(names), later) == Synced(out.disk, None)))
  {
    var p, q := Looped(load, c, disk, names, ms, clock);
    var out := Sync(load, c, disk, Found(names), clock).disk;
    SourcesSurvive(load, c, p, LoadRegistry(disk.registry).value, names, ms);
    SettledExactly(load, c, p, LoadRegistry(disk.registry).value, names, ms);
    CopiesSurvive(load, c, disk.files, p, LoadRegistry(disk.registry).value, names, ms, clock);
    if Sources(load, c, out.files, names, ms) {
      IdleIsSettled(load, c, out, names, ms, later);
    }
  }

  lemma {:induction false} SettledExactly(load: Loader, c: Config, p: Progress, records: Records, names: seq<string>,
                                          ms: seq<Manifest>)
    requires LoopInvariant(load, c, p, records, names, ms, |ms|)
    ensures var q := Pruned(p);
            Settled(load, c, q.files, q.records, ms) <==> Consistent(ms) && CopiesLoad(load, c, q.files, ms, |ms|)
  {
    var q := Pruned(p);
    if !Consistent(ms) {
      var i, j :| 0 <= i < |ms| && 0 <= j < |ms| && BundledId(ms[i]) == BundledId(ms[j])
                  && !(ms[i].version == ms[j].version && ms[i].description == ms[j].description);
      assert !UpToDate(load, c, q.files, q.records, ms[i]) || !UpToDate(load, c, q.files, q.records, ms[j]);
      return;
    }
    forall i: nat | i < |ms|
      ensures UpToDate(load, c, q.files, q.records, ms[i]) <==> LoadAt(load, q.files, Target(c, ms[i])).Ok?
    {
      assert Installed(c, p, ms[i]) && Current(p, ms[i]);
    }
  }

  lemma {:induction false} SourcesSurvive(load: Loader, c: Config, p: Progress, records: Records, names: seq<string>,
                                          ms: seq<Manifest>)
    requires LoopInvariant(load, c, p, records, names, ms, |ms|)
    ensures Sources(load, c, Pruned(p).files, names, ms) <==> NoStaleSource(c, records, names, ms)
  {
    if NoStaleSource(c, records, names, ms) {
      forall n | n in names ensures Path(c.bundledRoot, n) !in PathsOf(p.records, StaleIds(p)) {
        var i: nat :| i < |names| && names[i] == n;
        forall id | id in StaleIds(p) ensures p.records[id].installPath != Path(c.bundledRoot, names[i]) {
          assert Elsewhere(p, records, id);
        }
      }
      SourcesKept(load, c, p.files, Pruned(p).files, names, ms);
    } else {
      var id, i :| id in records && records[id].kind == Bundled && id !in Ids(ms, |ms|) && 0 <= i < |names|
                   && records[id].installPath == Path(c.bundledRoot, names[i]);
      assert Elsewhere(p, records, id) && id in StaleIds(p);
      assert p.records[id].installPath in PathsOf(p.records, StaleIds(p));
      assert LoadAt(load, Pruned(p).files, Path(c.bundledRoot, names[i])).Err?;
    }
  }
}
