/** `sync_bundled_plugins`: installed copies and registry records of the bundled plugins
    are brought into line with the bundled directory. */
module PluginSync {
  import opened Text
  import opened Plugins

  // ---------- What the loop over the bundled plugins computes ----------

  datatype Progress = Progress(files: Files, records: Records, active: set<string>, changed: bool)

  datatype Outcome = Outcome(progress: Progress, error: Option<PluginError>)

  function BundledId(m: Manifest): string {
    PluginId(m.name, BUNDLED)
  }

  function Target(c: Config, m: Manifest): Path {
    InstallPath(c, BundledId(m))
  }

  predicate UpToDate(load: Loader, c: Config, files: Files, records: Records, m: Manifest) {
    var id := BundledId(m);
    && id in records
    && records[id].kind == Bundled
    && records[id].version == m.version
    && records[id].name == m.name
    && records[id].description == m.description
    && records[id].installPath == Target(c, m)
    && LoadAt(load, files, Target(c, m)).Ok?
  }

  function NewRecord(c: Config, p: Progress, m: Manifest, source: Path, now: nat): Record {
    var id := BundledId(m);
    Record(Bundled, id, m.name, m.version, m.description, Target(c, m), LocalPath(source),
           if id in p.records then p.records[id].installedAt else now, now)
  }

  /** One bundled plugin whose manifest is `m`. */
  function SyncOne(load: Loader, c: Config, p: Progress, m: Manifest, source: Path, now: nat): Progress
    requires source in p.files
  {
    var id := BundledId(m);
    if UpToDate(load, c, p.files, p.records, m) then p.(active := p.active + {id})
    else
      Progress(Copied(p.files, source, Target(c, m)),
               p.records[id := NewRecord(c, p, m, source, now)], p.active + {id}, true)
  }

  /** The bundled plugins from the `i`-th on; `clock(i)` is the time read for the `i`-th. */
  function SyncFrom(load: Loader, c: Config, p: Progress, names: seq<string>, clock: nat -> nat, i: nat): Outcome
    requires i <= |names|
    decreases |names| - i, 2
  {
    if i == |names| then Outcome(p, None)
    else
      var loaded := LoadAt(load, p.files, Path(c.bundledRoot, names[i]));
      if loaded.Err? then Outcome(p, Some(loaded.error))
      else SyncLoaded(load, c, p, names, clock, i, loaded.value)
  }

  function SyncLoaded(load: Loader, c: Config, p: Progress, names: seq<string>, clock: nat -> nat, i: nat,
                      m: Manifest): Outcome
    requires i < |names| && Path(c.bundledRoot, names[i]) in p.files
    decreases |names| - i, 1
  {
    SyncNext(load, c, SyncOne(load, c, p, m, Path(c.bundledRoot, names[i]), clock(i)), names, clock, i)
  }

  function SyncNext(load: Loader, c: Config, p: Progress, names: seq<string>, clock: nat -> nat, i: nat): Outcome
    requires i < |names|
    decreases |names| - i, 0
  {
    SyncFrom(load, c, p, names, clock, i + 1)
  }

  lemma {:induction false} SyncStep(load: Loader, c: Config, p: Progress, names: seq<string>, clock: nat -> nat,
                                    i: nat, m: Manifest)
    requires i < |names| && LoadAt(load, p.files, Path(c.bundledRoot, names[i])) == Ok(m)
    ensures SyncFrom(load, c, p, names, clock, i) ==
            SyncFrom(load, c, SyncOne(load, c, p, m, Path(c.bundledRoot, names[i]), clock(i)), names, clock, i + 1)
  {
    var q := SyncOne(load, c, p, m, Path(c.bundledRoot, names[i]), clock(i));
    assert SyncFrom(load, c, p, names, clock, i) == SyncLoaded(load, c, p, names, clock, i, m);
    assert SyncLoaded(load, c, p, names, clock, i, m) == SyncNext(load, c, q, names, clock, i);
  }

  function StaleIds(p: Progress): set<string> {
    set id | id in p.records && p.records[id].kind == Bundled && id !in p.active
  }

  function PathsOf(records: Records, ids: set<string>): set<Path> {
    set id | id in ids && id in records :: records[id].installPath
  }

  /** Records of bundled plugins that are no longer there go, with their directories. */
  function Pruned(p: Progress): Progress {
    var stale := StaleIds(p);
    Progress(p.files - PathsOf(p.records, stale), p.records - stale, p.active, p.changed || stale != {})
  }

  // ---------- The whole operation ----------

  /** How reading the bundled directory went. */
  datatype Listing = Found(names: seq<string>) | PermissionDenied(denied: PluginError) | Failed(error: PluginError)

  datatype Synced = Synced(disk: Disk, result: Option<PluginError>)

  /** An unreadable default directory counts as empty, an explicitly configured one does not. */
  function Names(c: Config, listing: Listing): Result<seq<string>, PluginError> {
    match listing
    case Found(names) => Ok(names)
    case PermissionDenied(error) => if c.explicitRoot then Err(error) else Ok([])
    case Failed(error) => Err(error)
  }

  function Sync(load: Loader, c: Config, disk: Disk, listing: Listing, clock: nat -> nat): Synced {
    var names := Names(c, listing);
    var records := LoadRegistry(disk.registry);
    if names.Err? then Synced(disk, Some(names.error))
    else if records.Err? then Synced(disk, Some(records.error))
    else
      var out := SyncFrom(load, c, Progress(disk.files, records.value, {}, false), names.value, clock, 0);
      if out.error.Some? then Synced(Disk(out.progress.files, disk.registry), out.error)
      else
        var p := Pruned(out.progress);
        Synced(Disk(p.files, if p.changed then Stored(p.records) else disk.registry), None)
  }

  lemma {:induction false} RemoveOne(before: Files, records: Records, done: set<string>, id: string, left: Records,
                                     files: Files)
    requires id in records && id !in done
    requires left == records - done && files == before - PathsOf(records, done)
    ensures id in left && left[id] == records[id]
    ensures left - {id} == records - (done + {id})
    ensures files - {records[id].installPath} == before - PathsOf(records, done + {id})
  {
    var path := records[id].installPath;
    assert PathsOf(records, done + {id}) == PathsOf(records, done) + {path};
    MinusTwice(before, PathsOf(records, done), {path});
    MinusTwice(records, done, {id});
  }

  lemma {:induction false} NothingRemoved(records: Records, files: Files)
    ensures records - {} == records && files - PathsOf(records, {}) == files
  {
    assert PathsOf(records, {}) == {};
  }

  lemma {:induction false} MinusTwice<K, V>(m: map<K, V>, a: set<K>, b: set<K>)
    ensures m - a - b == m - (a + b)
  {
  }
}
