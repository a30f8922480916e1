/** Whose files the installed copies of the bundled plugins are: names that differ only in
    the four replaced characters share one directory. */
module PluginCopies {
  import opened Text
  import opened Plugins
  import opened PluginSync
  import opened PluginSyncFixpoint

  // ---------- Which plugin a copy is ----------

  /** A copy of a bundled directory loads under its own name where it is installed. */
  predicate KeepsName(load: Loader, c: Config, files: Files, names: seq<string>, ms: seq<Manifest>)
    requires Sources(load, c, files, names, ms)
  {
    forall i :: 0 <= i < |names| ==>
                  var copy := load(Target(c, ms[i]), files[Path(c.bundledRoot, names[i])]);
                  copy.Ok? && copy.value.name == ms[i].name
  }

  /** Where `m` is installed there is a plugin of this name. */
  predicate LoadsAs(load: Loader, c: Config, files: Files, m: Manifest, name: string) {
    var copy := LoadAt(load, files, Target(c, m));
    copy.Ok? && copy.value.name == name
  }

  /** What is up to date when the sync starts is the plugin it is recorded as. */
  predicate StartsOwn(load: Loader, c: Config, files: Files, records: Records, ms: seq<Manifest>) {
    forall i :: 0 <= i < |ms| && UpToDate(load, c, files, records, ms[i]) ==>
                  LoadsAs(load, c, files, ms[i], ms[i].name)
  }

  /** No two names become one directory name. */
  predicate NamesApart(ms: seq<Manifest>) {
    forall i, j :: 0 <= i < |ms| && 0 <= j < |ms| && Sanitize(ms[i].name) == Sanitize(ms[j].name) ==>
                     ms[i].name == ms[j].name
  }

  /** Nothing has been done yet for this plugin. */
  ghost predicate Untouched(c: Config, files: Files, records: Records, p: Progress, m: Manifest) {
    var id, target := BundledId(m), Target(c, m);
    && (id in p.records <==> id in records) && (id in records ==> p.records[id] == records[id])
    && (target in p.files <==> target in files) && (target in files ==> p.files[target] == files[target])
  }

  /** Where the `i`-th plugin is installed there is one of the first `n` that go there. */
  ghost predicate HoldsOneOf(load: Loader, c: Config, files: Files, ms: seq<Manifest>, n: nat, i: nat)
    requires n <= |ms| && i < |ms|
  {
    exists j: nat :: j < n && Target(c, ms[j]) == Target(c, ms[i]) && LoadsAs(load, c, files, ms[i], ms[j].name)
  }

  /** None of the first `n` plugins goes where `m` goes. */
  ghost predicate First(c: Config, ms: seq<Manifest>, n: nat, m: Manifest)
    requires n <= |ms|
  {
    forall j :: 0 <= j < n ==> Target(c, ms[j]) != Target(c, m)
  }

  /** Unless a plugin before it goes where it goes, nothing has been done yet for the `i`-th. */
  ghost predicate Pending(c: Config, files: Files, records: Records, ms: seq<Manifest>, p: Progress, n: nat, i: nat)
    requires n <= |ms| && i < |ms|
  {
    First(c, ms, n, ms[i]) ==> Untouched(c, files, records, p, ms[i])
  }

  predicate SameSources(c: Config, names: seq<string>, files: Files, after: Files) {
    forall n :: n in names && Path(c.bundledRoot, n) in files ==>
                  && Path(c.bundledRoot, n) in after
                  && after[Path(c.bundledRoot, n)] == files[Path(c.bundledRoot, n)]
  }

  /** After the first `n` plugins of a sync that began with `files` and `records`. */
  ghost predicate Copying(load: Loader, c: Config, files: Files, records: Records, names: seq<string>,
                          ms: seq<Manifest>, p: Progress, n: nat)
    requires n <= |ms|
  {
    && SameSources(c, names, files, p.files)
    && (forall i: nat :: i < n ==> HoldsOneOf(load, c, p.files, ms, n, i))
    && (forall i: nat :: n <= i < |ms| ==> Pending(c, files, records, ms, p, n, i))
  }

  lemma {:induction false} CopyingStep(load: Loader, c: Config, files: Files, records: Records, names: seq<string>,
                                       ms: seq<Manifest>, p: Progress, n: nat, now: nat)
    requires c.installRoot != c.bundledRoot && n < |ms|
    requires Sources(load, c, files, names, ms) && KeepsName(load, c, files, names, ms)
    requires StartsOwn(load, c, files, records, ms) && Copying(load, c, files, records, names, ms, p, n)
    ensures LoadAt(load, p.files, Path(c.bundledRoot, names[n])) == Ok(ms[n])
    ensures var q := SyncOne(load, c, p, ms[n], Path(c.bundledRoot, names[n]), now);
            Copying(load, c, files, records, names, ms, q, n + 1)
  {
    var source := Path(c.bundledRoot, names[n]);
    assert LoadAt(load, files, source) == Ok(ms[n]) && names[n] in names;
    var q := SyncOne(load, c, p, ms[n], source, now);
    var next := n + 1;
    forall i: nat | i < next ensures HoldsOneOf(load, c, q.files, ms, next, i) {
      OneHeld(load, c, files, records, names, ms, p, n, now, i);
    }
    forall i: nat | next <= i < |ms| ensures Pending(c, files, records, ms, q, next, i) {
      assert Pending(c, files, records, ms, p, n, i);
    }
  }

  lemma {:induction false} OneHeld(load: Loader, c: Config, files: Files, records: Records, names: seq<string>,
                                   ms: seq<Manifest>, p: Progress, n: nat, now: nat, i: nat)
    requires c.installRoot != c.bundledRoot && n < |ms| && i <= n
    requires Sources(load, c, files, names, ms) && KeepsName(load, c, files, names, ms)
    requires StartsOwn(load, c, files, records, ms) && Copying(load, c, files, records, names, ms, p, n)
    requires Path(c.bundledRoot, names[n]) in p.files
    requires p.files[Path(c.bundledRoot, names[n])] == files[Path(c.bundledRoot, names[n])]
    ensures var q := SyncOne(load, c, p, ms[n], Path(c.bundledRoot, names[n]), now);
            HoldsOneOf(load, c, q.files, ms, n + 1, i)
  {
    var q := SyncOne(load, c, p, ms[n], Path(c.bundledRoot, names[n]), now);
    if !UpToDate(load, c, p.files, p.records, ms[n]) && Target(c, ms[i]) == Target(c, ms[n]) {
      assert LoadsAs(load, c, q.files, ms[i], ms[n].name);
    } else if i == n && First(c, ms, n, ms[n]) {
      assert Pending(c, files, records, ms, p, n, n);
      assert UpToDate(load, c, files, records, ms[n]);
      assert LoadsAs(load, c, q.files, ms[n], ms[n].name);
    } else {
      var k: nat := if i < n then i else FirstOf(c, ms, n);
      assert HoldsOneOf(load, c, p.files, ms, n, k);
      var j: nat :| j < n && Target(c, ms[j]) == Target(c, ms[k]) && LoadsAs(load, c, p.files, ms[k], ms[j].name);
      assert LoadsAs(load, c, q.files, ms[i], ms[j].name);
    }
  }

  ghost function FirstOf(c: Config, ms: seq<Manifest>, n: nat): (k: nat)
    requires n < |ms| && !First(c, ms, n, ms[n])
    ensures k < n && Target(c, ms[k]) == Target(c, ms[n])
  {
    var k :| 0 <= k < n && Target(c, ms[k]) == Target(c, ms[n]);
    k
  }

  lemma {:induction false} CopyingEnds(load: Loader, c: Config, files: Files, records: Records, names: seq<string>,
                                       ms: seq<Manifest>, p: Progress, clock: nat -> nat, n: nat)
    requires c.installRoot != c.bundledRoot && n <= |ms|
    requires Sources(load, c, files, names, ms) && KeepsName(load, c, files, names, ms)
    requires StartsOwn(load, c, files, records, ms) && Copying(load, c, files, records, names, ms, p, n)
    ensures Copying(load, c, files, records, names, ms, SyncFrom(load, c, p, names, clock, n).progress, |ms|)
    decreases |ms| - n
  {
    if n < |ms| {
      CopyingStep(load, c, files, records, names, ms, p, n, clock(n));
      SyncStep(load, c, p, names, clock, n, ms[n]);
      var q := SyncOne(load, c, p, ms[n], Path(c.bundledRoot, names[n]), clock(n));
      CopyingEnds(load, c, files, records, names, ms, q, clock, n + 1);
    }
  }

  lemma {:induction false} AllHold(load: Loader, c: Config, files: Files, records: Records, names: seq<string>,
                                   ms: seq<Manifest>, clock: nat -> nat)
    requires c.installRoot != c.bundledRoot && Sources(load, c, files, names, ms)
    requires KeepsName(load, c, files, names, ms) && StartsOwn(load, c, files, records, ms)
    ensures var p := SyncFrom(load, c, Progress(files, records, {}, false), names, clock, 0).progress;
            forall i: nat :: i < |ms| ==> HoldsOneOf(load, c, p.files, ms, |ms|, i)
  {
    CopyingEnds(load, c, files, records, names, ms, Progress(files, records, {}, false), clock, 0);
  }

  /** After a sync every bundled plugin is recorded at a copy of its own exactly when no two
      names become one directory name and no stale plugin was installed where a present one
      goes. */
  lemma {:induction false} CopiesAreOwn(load: Loader, c: Config, disk: Disk, names: seq<string>, ms: seq<Manifest>,
                                        clock: nat -> nat)
    requires c.installRoot != c.bundledRoot && LoadRegistry(disk.registry).Ok?
    requires Sources(load, c, disk.files, names, ms) && KeepsName(load, c, disk.files, names, ms)
    requires StartsOwn(load, c, disk.files, LoadRegistry(disk.registry).value, ms)
    ensures var after := Sync(load, c, disk, Found(names), clock).disk.files;
            (forall i :: 0 <= i < |ms| ==> LoadsAs(load, c, after, ms[i], ms[i].name))
            <==> NamesApart(ms) && NoStaleClash(c, LoadRegistry(disk.registry).value, ms)
  {
    var records := LoadRegistry(disk.registry).value;
    var p, q := Looped(load, c, disk, names, ms, clock);
    AllHold(load, c, disk.files, records, names, ms, clock);
    OwnExactly(load, c, p, records, names, ms);
  }

  lemma {:induction false} OwnExactly(load: Loader, c: Config, p: Progress, records: Records, names: seq<string>,
                                      ms: seq<Manifest>)
    requires LoopInvariant(load, c, p, records, names, ms, |ms|)
    requires forall i: nat :: i < |ms| ==> HoldsOneOf(load, c, p.files, ms, |ms|, i)
    ensures (forall i :: 0 <= i < |ms| ==> LoadsAs(load, c, Pruned(p).files, ms[i], ms[i].name))
            <==> NamesApart(ms) && NoStaleClash(c, records, ms)
  {
    var files := Pruned(p).files;
    if NamesApart(ms) && NoStaleClash(c, records, ms) {
      forall i: nat | i < |ms| ensures LoadsAs(load, c, files, ms[i], ms[i].name) {
        OwnHeld(load, c, p, records, names, ms, i);
      }
    }
    if forall i :: 0 <= i < |ms| ==> LoadsAs(load, c, files, ms[i], ms[i].name) {
      OwnIsApart(load, c, files, ms);
      forall i: nat | i < |ms| ensures Target(c, ms[i]) in files {
        assert LoadsAs(load, c, files, ms[i], ms[i].name);
      }
      NoneClashed(load, c, p, records, names, ms);
    }
  }

  lemma {:induction false} NoneClashed(load: Loader, c: Config, p: Progress, records: Records, names: seq<string>,
                                       ms: seq<Manifest>)
    requires LoopInvariant(load, c, p, records, names, ms, |ms|)
    requires forall i: nat :: i < |ms| ==> Target(c, ms[i]) in Pruned(p).files
    ensures NoStaleClash(c, records, ms)
  {
    forall id, i: nat | id in records && records[id].kind == Bundled && id !in Ids(ms, |ms|) && i < |ms|
      ensures records[id].installPath != Target(c, ms[i])
    {
      TargetSurvives(load, c, p, records, names, ms, i);
    }
  }

  lemma {:induction false} OwnHeld(load: Loader, c: Config, p: Progress, records: Records, names: seq<string>,
                                   ms: seq<Manifest>, i: nat)
    requires i < |ms| && LoopInvariant(load, c, p, records, names, ms, |ms|)
    requires HoldsOneOf(load, c, p.files, ms, |ms|, i) && NamesApart(ms) && NoStaleClash(c, records, ms)
    ensures LoadsAs(load, c, Pruned(p).files, ms[i], ms[i].name)
  {
    var j: nat :| j < |ms| && Target(c, ms[j]) == Target(c, ms[i]) && LoadsAs(load, c, p.files, ms[i], ms[j].name);
    PathsClash(c, ms[i].name, ms[j].name, Bundled);
    TargetSurvives(load, c, p, records, names, ms, i);
  }

  lemma {:induction false} OwnIsApart(load: Loader, c: Config, files: Files, ms: seq<Manifest>)
    requires forall i :: 0 <= i < |ms| ==> LoadsAs(load, c, files, ms[i], ms[i].name)
    ensures NamesApart(ms)
  {
    forall i, j | 0 <= i < |ms| && 0 <= j < |ms| && Sanitize(ms[i].name) == Sanitize(ms[j].name)
      ensures ms[i].name == ms[j].name
    {
      PathsClash(c, ms[i].name, ms[j].name, Bundled);
      assert LoadsAs(load, c, files, ms[i], ms[i].name) && LoadsAs(load, c, files, ms[j], ms[j].name);
    }
  }

  // ---------- What a copy holds ----------

  /** No other plugin goes where the `i`-th goes. */
  predicate Alone(c: Config, ms: seq<Manifest>, i: nat)
    requires i < |ms|
  {
    forall j :: 0 <= j < |ms| && j != i ==> Target(c, ms[j]) != Target(c, ms[i])
  }

  /** What the installed copy of the `i`-th plugin should hold: what it held if it was up to
      date, and else the plugin's own bundled directory. */
  ghost predicate OwnCopy(load: Loader, c: Config, files: Files, records: Records, names: seq<string>,
                          ms: seq<Manifest>, after: Files, i: nat)
    requires i < |ms| && Sources(load, c, files, names, ms)
  {
    var target := Target(c, ms[i]);
    target in after && after[target] ==
      if UpToDate(load, c, files, records, ms[i]) then files[target] else files[Path(c.bundledRoot, names[i])]
  }

  /** The copy of the `i`-th plugin before and after that one's turn. */
  ghost predicate Settling(load: Loader, c: Config, files: Files, records: Records, names: seq<string>,
                         ms: seq<Manifest>, p: Progress, n: nat, i: nat)
    requires i < |ms| && Sources(load, c, files, names, ms)
  {
    && SameSources(c, names, files, p.files)
    && (i < n ==> OwnCopy(load, c, files, records, names, ms, p.files, i))
    && (n <= i ==> Untouched(c, files, records, p, ms[i]))
  }

  lemma {:induction false} OneCopied(load: Loader, c: Config, files: Files, records: Records, names: seq<string>,
                                     ms: seq<Manifest>, p: Progress, n: nat, i: nat, now: nat)
    requires c.installRoot != c.bundledRoot && n < |ms| && i < |ms| && Alone(c, ms, i)
    requires Sources(load, c, files, names, ms) && Settling(load, c, files, records, names, ms, p, n, i)
    ensures LoadAt(load, p.files, Path(c.bundledRoot, names[n])) == Ok(ms[n])
    ensures var q := SyncOne(load, c, p, ms[n], Path(c.bundledRoot, names[n]), now);
            Settling(load, c, files, records, names, ms, q, n + 1, i)
  {
    assert LoadAt(load, files, Path(c.bundledRoot, names[n])) == Ok(ms[n]) && names[n] in names;
    assert LoadAt(load, files, Path(c.bundledRoot, names[i])) == Ok(ms[i]) && names[i] in names;
    assert n != i ==> Target(c, ms[n]) != Target(c, ms[i]);
    assert n == i ==> UpToDate(load, c, p.files, p.records, ms[n]) == UpToDate(load, c, files, records, ms[n]);
  }

  lemma {:induction false} LoopCopies(load: Loader, c: Config, files: Files, records: Records, names: seq<string>,
                                      ms: seq<Manifest>, p: Progress, clock: nat -> nat, n: nat, i: nat)
    requires c.installRoot != c.bundledRoot && n <= |ms| && i < |ms| && Alone(c, ms, i)
    requires Sources(load, c, files, names, ms) && Settling(load, c, files, records, names, ms, p, n, i)
    ensures OwnCopy(load, c, files, records, names, ms, SyncFrom(load, c, p, names, clock, n).progress.files, i)
    decreases |ms| - n
  {
    if n < |ms| {
      OneCopied(load, c, files, records, names, ms, p, n, i, clock(n));
      SyncStep(load, c, p, names, clock, n, ms[n]);
      var q := SyncOne(load, c, p, ms[n], Path(c.bundledRoot, names[n]), clock(n));
      LoopCopies(load, c, files, records, names, ms, q, clock, n + 1, i);
    }
  }

  /** Where no other bundled plugin goes and no stale one clashed, the installed copy is the
      plugin's own bundled directory, unless it was up to date, and then it is as it was. */
  lemma {:induction false} SyncCopiesOwn(load: Loader, c: Config, disk: Disk, names: seq<string>, ms: seq<Manifest>,
                                         clock: nat -> nat, i: nat)
    requires c.installRoot != c.bundledRoot && LoadRegistry(disk.registry).Ok?
    requires Sources(load, c, disk.files, names, ms)
    requires i < |ms| && Alone(c, ms, i)
    ensures var after := Sync(load, c, disk, Found(names), clock).disk.files;
            var records := LoadRegistry(disk.registry).value;
            if ClashFree(c, records, ms, i) then OwnCopy(load, c, disk.files, records, names, ms, after, i)
            else Target(c, ms[i]) !in after
  {
    var records := LoadRegistry(disk.registry).value;
    var start := Progress(disk.files, records, {}, false);
    var p, q := Looped(load, c, disk, names, ms, clock);
    LoopCopies(load, c, disk.files, records, names, ms, start, clock, 0, i);
    OwnSurvives(load, c, disk.files, records, p, names, ms, i);
  }

  lemma {:induction false} OwnSurvives(load: Loader, c: Config, files: Files, records: Records, p: Progress,
                                       names: seq<string>, ms: seq<Manifest>, i: nat)
    requires i < |ms| && LoopInvariant(load, c, p, records, names, ms, |ms|)
    requires Sources(load, c, files, names, ms) && OwnCopy(load, c, files, records, names, ms, p.files, i)
    ensures if ClashFree(c, records, ms, i) then OwnCopy(load, c, files, records, names, ms, Pruned(p).files, i)
            else Target(c, ms[i]) !in Pruned(p).files
  {
    TargetSurvives(load, c, p, records, names, ms, i);
  }

  /** What is to be the copy of the `i`-th plugin loads under its name there. */
  predicate OwnLoads(load: Loader, c: Config, files: Files, records: Records, names: seq<string>, ms: seq<Manifest>,
                     i: nat)
    requires i < |ms| && Sources(load, c, files, names, ms)
  {
    if UpToDate(load, c, files, records, ms[i]) then LoadsAs(load, c, files, ms[i], ms[i].name)
    else
      var copy := load(Target(c, ms[i]), files[Path(c.bundledRoot, names[i])]);
      copy.Ok? && copy.value.name == ms[i].name
  }

  /** So such a plugin is found under its own name where it is recorded exactly when no stale
      one clashed and its directory, or the copy that was up to date, loads so there. */
  lemma {:induction false} CopyIsOwn(load: Loader, c: Config, disk: Disk, names: seq<string>, ms: seq<Manifest>,
                                     clock: nat -> nat, i: nat)
    requires c.installRoot != c.bundledRoot && LoadRegistry(disk.registry).Ok?
    requires Sources(load, c, disk.files, names, ms)
    requires i < |ms| && Alone(c, ms, i)
    ensures var after := Sync(load, c, disk, Found(names), clock).disk.files;
            var records := LoadRegistry(disk.registry).value;
            LoadsAs(load, c, after, ms[i], ms[i].name) <==>
              ClashFree(c, records, ms, i) && OwnLoads(load, c, disk.files, records, names, ms, i)
  {
    SyncCopiesOwn(load, c, disk, names, ms, clock, i);
    var after := Sync(load, c, disk, Found(names), clock).disk.files;
    assert LoadAt(load, disk.files, Path(c.bundledRoot, names[i])) == Ok(ms[i]);
    CopyLoadsAs(load, c, disk.files, LoadRegistry(disk.registry).value, names, ms, after, i);
  }

  lemma {:induction false} CopyLoadsAs(load: Loader, c: Config, files: Files, records: Records, names: seq<string>,
                                       ms: seq<Manifest>, after: Files, i: nat)
    requires i < |ms| && Sources(load, c, files, names, ms)
    ensures OwnCopy(load, c, files, records, names, ms, after, i) ==>
              (LoadsAs(load, c, after, ms[i], ms[i].name) <==> OwnLoads(load, c, files, records, names, ms, i))
  {
  }
}
