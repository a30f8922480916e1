/** Runs of the plugin manager's operations: what every one of them keeps, and what one
    plugin's operations leave of the others. */
module PluginRuns {
  import opened Text
  import opened Ordering
  import opened Plugins
  import opened PluginSync
  import opened PluginDiscovery
  import opened PluginRegistry
  import opened PluginManager

  datatype Operation =
    | Installing(source: InstallSource, staged: Path, now: nat)
    | Uninstalling(id: string)
    | Enabling(id: string, on: bool, listing: Listing, clock: nat -> nat)
    | Reporting(listing: Listing, clock: nat -> nat)

  ghost function Step(load: Loader, c: Config, home: Home, op: Operation): Home {
    match op
    case Installing(source, staged, now) => Install(load, c, home, source, staged, now).home
    case Uninstalling(id) => Uninstall(home, id).home
    case Enabling(id, on, listing, clock) => SetEnabled(load, c, home, id, on, listing, clock).home
    case Reporting(listing, clock) => home.(disk := Registry(load, c, home.disk, home.enabled, listing, clock).disk)
  }

  ghost function Run(load: Loader, c: Config, home: Home, ops: seq<Operation>): Home
    decreases |ops|
  {
    if ops == [] then home else Run(load, c, Step(load, c, home, ops[0]), ops[1..])
  }

  // ---------- What every operation keeps ----------

  ghost predicate KeyedDisk(disk: Disk) {
    var records := LoadRegistry(disk.registry);
    records.Ok? ==> WellKeyed(records.value)
  }

  /** The settings file and the configuration agree on whether `id` is enabled. */
  predicate Agree(home: Home, id: string) {
    && (id in home.settings <==> id in home.enabled)
    && (id in home.settings ==> home.settings[id] == home.enabled[id])
  }

  /** An external plugin `id` with record `r` and directory `d`. */
  ghost predicate Holds(disk: Disk, id: string, r: Record, d: Directory) {
    var records := LoadRegistry(disk.registry);
    && records.Ok? && id in records.value && records.value[id] == r && r.kind == External
    && r.installPath in disk.files && disk.files[r.installPath] == d && HasManifest(d)
  }

  // ---------- Sync ----------

  ghost predicate Kept(p: Progress, q: Progress, id: string)
    requires id in p.records
  {
    var path := p.records[id].installPath;
    && id in q.records && q.records[id] == p.records[id]
    && (path in p.files ==> path in q.files && q.files[path] == p.files[path])
  }

  lemma {:induction false} SyncOneKeeps(load: Loader, c: Config, p: Progress, m: Manifest, source: Path, now: nat)
    requires source in p.files && WellKeyed(p.records)
    ensures var q := SyncOne(load, c, p, m, source, now);
            && WellKeyed(q.records)
            && forall id :: id in p.records && p.records[id].kind == External ==> Kept(p, q, id)
  {
    var q := SyncOne(load, c, p, m, source, now);
    forall id | id in p.records && p.records[id].kind == External ensures Kept(p, q, id) {
      KindsApart(p.records[id].name, External, m.name, Bundled);
    }
  }

  lemma {:induction false} SyncFromKeeps(load: Loader, c: Config, p: Progress, names: seq<string>,
                                         clock: nat -> nat, i: nat)
    requires i <= |names| && WellKeyed(p.records)
    ensures var q := SyncFrom(load, c, p, names, clock, i).progress;
            && WellKeyed(q.records)
            && forall id :: id in p.records && p.records[id].kind == External ==> Kept(p, q, id)
    decreases |names| - i
  {
    if i < |names| {
      var source := Path(c.bundledRoot, names[i]);
      var loaded := LoadAt(load, p.files, source);
      if loaded.Ok? {
        SyncOneKeeps(load, c, p, loaded.value, source, clock(i));
        SyncStep(load, c, p, names, clock, i, loaded.value);
        var q := SyncOne(load, c, p, loaded.value, source, clock(i));
        SyncFromKeeps(load, c, q, names, clock, i + 1);
        forall id | id in p.records && p.records[id].kind == External
          ensures Kept(p, SyncFrom(load, c, p, names, clock, i).progress, id)
        {
          assert Kept(p, q, id);
        }
      }
    }
  }

  lemma {:induction false} PrunedKeeps(p: Progress)
    requires WellKeyed(p.records)
    ensures WellKeyed(Pruned(p).records)
    ensures forall id :: id in p.records && p.records[id].kind == External ==> Kept(p, Pruned(p), id)
  {
    forall id | id in p.records && p.records[id].kind == External ensures Kept(p, Pruned(p), id) {
      if p.records[id].installPath in PathsOf(p.records, StaleIds(p)) {
        var other :| other in StaleIds(p) && p.records[other].installPath == p.records[id].installPath;
        KindsApart(p.records[id].name, External, p.records[other].name, Bundled);
      }
    }
  }

  /** However a sync ends, every external plugin keeps its record and its files; when it
      fails, the registry file is as it was. */
  lemma {:induction false} SyncKeeps(load: Loader, c: Config, disk: Disk, listing: Listing, clock: nat -> nat,
                                     id: string, r: Record, d: Directory)
    requires KeyedDisk(disk)
    ensures var out := Sync(load, c, disk, listing, clock);
            && KeyedDisk(out.disk)
            && (out.result.Some? ==> out.disk.registry == disk.registry)
            && (Holds(disk, id, r, d) ==> Holds(out.disk, id, r, d))
  {
    var names, records := Names(c, listing), LoadRegistry(disk.registry);
    if names.Ok? && records.Ok? {
      var p := Progress(disk.files, records.value, {}, false);
      var out := SyncFrom(load, c, p, names.value, clock, 0);
      SyncFromKeeps(load, c, p, names.value, clock, 0);
      PrunedKeeps(out.progress);
      if Holds(disk, id, r, d) {
        assert Kept(p, out.progress, id) && Kept(out.progress, Pruned(out.progress), id);
        var q := if out.error.Some? then out.progress else Pruned(out.progress);
        HoldsAfter(disk, q, Sync(load, c, disk, listing, clock).disk.registry, id, r, d);
      }
    }
  }

  lemma {:induction false} HoldsAfter(disk: Disk, q: Progress, file: RegistryFile, id: string, r: Record,
                                      d: Directory)
    requires Holds(disk, id, r, d)
    requires Kept(Progress(disk.files, LoadRegistry(disk.registry).value, {}, false), q, id)
    requires file == disk.registry || file == Stored(q.records)
    ensures Holds(Disk(q.files, file), id, r, d)
  {
  }

  // ---------- Discovery ----------

  ghost predicate Lists(rs: seq<Record>, records: Records) {
    forall r :: r in rs <==> exists id :: id in records && records[id] == r
  }

  lemma {:induction false} RecordsInAt(records: Records, order: seq<string>)
    requires forall id :: id in order ==> id in records
    ensures |RecordsIn(records, order)| == |order|
    ensures forall i :: 0 <= i < |order| ==> RecordsIn(records, order)[i] == records[order[i]]
  {
    if order != [] {
      RecordsInAt(records, order[..|order| - 1]);
    }
  }

  lemma {:induction false} RecordsListed(records: Records, order: seq<string>)
    requires forall id :: id in order <==> id in records
    ensures Lists(RecordsIn(records, order), records)
  {
    RecordsInAt(records, order);
    var rs := RecordsIn(records, order);
    forall r ensures r in rs <==> exists id :: id in records && records[id] == r {
      if id :| id in records && records[id] == r {
        assert id in order;
        var i :| 0 <= i < |order| && order[i] == id;
        assert rs[i] == r;
      }
      if i :| 0 <= i < |rs| && rs[i] == r {
        assert order[i] in order;
      }
    }
  }

  lemma {:induction false} InstallDirsPresent(files: Files, root: string)
    ensures AllPresent(files, PathsIn(root, PluginDirs(files, root)))
  {
    var names := PluginDirs(files, root);
    forall p | p in PathsIn(root, names) ensures p in files && HasManifest(files[p]) {
      var i :| 0 <= i < |names| && p == Path(root, names[i]);
      assert names[i] in names;
    }
  }

  /** Discovery drops exactly the records whose directory, or the manifest in it, is gone. */
  lemma {:induction false} DiscoverKeeps(load: Loader, disk: Disk, records: Records, order: seq<string>,
                                         roots: seq<Path>)
    requires LoadRegistry(disk.registry) == Ok(records) && forall id :: id in records ==> records[id].id == id
    requires (forall id :: id in order <==> id in records) && AllPresent(disk.files, roots)
    ensures var found := Discover(load, disk, records, order, roots).0;
            && found.files == disk.files
            && LoadRegistry(found.registry) ==
               Ok(map id | id in records && !Gone(disk.files, records[id]) :: records[id])
  {
    var rs := RecordsIn(records, order);
    RecordsListed(records, order);
    StaleRecords(load, disk.files, records, rs, roots);
    var s := ScanRecords(load, disk.files, ScanDirs(load, disk.files, rs, roots), rs);
    StaleLeft(disk.files, records, s.stale);
    var found := Discover(load, disk, records, order, roots).0;
    assert found == if s.stale == {} then disk else disk.(registry := Stored(records - s.stale));
  }

  lemma {:induction false} StaleLeft(files: Files, records: Records, stale: set<string>)
    requires forall id :: id in records ==> (id in stale <==> Gone(files, records[id]))
    ensures records - stale == map id | id in records && !Gone(files, records[id]) :: records[id]
    ensures stale == {} ==> records - stale == records
  {
  }

  lemma {:induction false} StaleRecords(load: Loader, files: Files, records: Records, rs: seq<Record>,
                                        roots: seq<Path>)
    requires (forall id :: id in records ==> records[id].id == id) && AllPresent(files, roots)
    requires Lists(rs, records)
    ensures var stale := ScanRecords(load, files, ScanDirs(load, files, rs, roots), rs).stale;
            forall id :: id in records ==> (id in stale <==> Gone(files, records[id]))
  {
    var dirs := ScanDirs(load, files, rs, roots);
    DirsSeen(load, files, rs, roots);
    StaleExactly(load, files, dirs, rs);
    var stale := ScanRecords(load, files, dirs, rs).stale;
    forall id | id in records ensures id in stale <==> Gone(files, records[id]) {
      assert records[id] in rs;
      if id in stale {
        var r :| r in rs && r.id == id && Gone(files, r);
        var k :| k in records && records[k] == r;
        assert k == id;
      }
    }
  }

  lemma {:induction false} RegistryKeeps(load: Loader, c: Config, disk: Disk, enabled: map<string, bool>,
                                         listing: Listing, clock: nat -> nat, id: string, r: Record, d: Directory)
    requires KeyedDisk(disk)
    ensures var report := Registry(load, c, disk, enabled, listing, clock);
            KeyedDisk(report.disk) && (Holds(disk, id, r, d) ==> Holds(report.disk, id, r, d))
  {
    SyncKeeps(load, c, disk, listing, clock, id, r, d);
    var synced := Sync(load, c, disk, listing, clock);
    var records := LoadRegistry(synced.disk.registry);
    if synced.result.None? && records.Ok? {
      GatheredKeeps(load, c, synced.disk, enabled, records.value, id, r, d);
    }
  }

  lemma {:induction false} GatheredKeeps(load: Loader, c: Config, disk: Disk, enabled: map<string, bool>,
                                         records: Records, id: string, r: Record, d: Directory)
    requires LoadRegistry(disk.registry) == Ok(records) && WellKeyed(records)
    ensures var after := Gathered(load, c, disk, enabled, records).disk;
            KeyedDisk(after) && (Holds(disk, id, r, d) ==> Holds(after, id, r, d))
  {
    var roots := PathsIn(c.installRoot, PluginDirs(disk.files, c.installRoot));
    InstallDirsPresent(disk.files, c.installRoot);
    DiscoverKeeps(load, disk, records, SortedKeys(records.Keys), roots);
    LeftKeeps(disk, records, Discover(load, disk, records, SortedKeys(records.Keys), roots).0, id, r, d);
  }

  lemma {:induction false} LeftKeeps(disk: Disk, records: Records, after: Disk, id: string, r: Record,
                                     d: Directory)
    requires LoadRegistry(disk.registry) == Ok(records) && WellKeyed(records)
    requires after.files == disk.files
    requires LoadRegistry(after.registry) == Ok(map k | k in records && !Gone(disk.files, records[k]) :: records[k])
    ensures KeyedDisk(after) && (Holds(disk, id, r, d) ==> Holds(after, id, r, d))
  {
  }

  // ---------- Reports ----------

  ghost predicate NoneBuiltin(records: Records) {
    forall id :: id in records ==> records[id].kind != Builtin
  }

  /** A sync adds records of bundled plugins only. */
  lemma {:induction false} SyncAddsBundled(load: Loader, c: Config, p: Progress, names: seq<string>,
                                           clock: nat -> nat, i: nat)
    requires i <= |names| && NoneBuiltin(p.records)
    ensures NoneBuiltin(SyncFrom(load, c, p, names, clock, i).progress.records)
    decreases |names| - i
  {
    if i < |names| {
      var source := Path(c.bundledRoot, names[i]);
      var loaded := LoadAt(load, p.files, source);
      if loaded.Ok? {
        SyncStep(load, c, p, names, clock, i, loaded.value);
        SyncAddsBundled(load, c, SyncOne(load, c, p, loaded.value, source, clock(i)), names, clock, i + 1);
      }
    }
  }

  /** Every registry built from external and bundled records, wherever they are installed,
      lists its plugins by strictly increasing, hence distinct, identifiers. */
  lemma {:induction false} RegistryIncreases(load: Loader, c: Config, disk: Disk, enabled: map<string, bool>,
                                             listing: Listing, clock: nat -> nat)
    requires LoadRegistry(disk.registry).Ok? ==> NoneBuiltin(LoadRegistry(disk.registry).value)
    requires Registry(load, c, disk, enabled, listing, clock).registry.Ok?
    ensures Ascending(Registry(load, c, disk, enabled, listing, clock).registry.value)
  {
    var p := Progress(disk.files, LoadRegistry(disk.registry).value, {}, false);
    var synced := Sync(load, c, disk, listing, clock);
    SyncAddsBundled(load, c, p, Names(c, listing).value, clock, 0);
    GatheredIncreases(load, c, synced.disk, enabled, LoadRegistry(synced.disk.registry).value);
  }

  lemma {:induction false} GatheredIncreases(load: Loader, c: Config, disk: Disk, enabled: map<string, bool>,
                                             records: Records)
    requires NoneBuiltin(records) && Gathered(load, c, disk, enabled, records).registry.Ok?
    ensures Ascending(Gathered(load, c, disk, enabled, records).registry.value)
  {
    var rs := RecordsIn(records, SortedKeys(records.Keys));
    RecordsListed(records, SortedKeys(records.Keys));
    assert forall r :: r in rs ==> r.kind != Builtin;
    var all := GatheredAll(load, c, disk, enabled, records);
    IdsDistinct(load, disk.files, rs, PathsIn(c.installRoot, PluginDirs(disk.files, c.installRoot)),
                ExternalRoots(disk.files, c.externalDirs));
    RegisterKeepsIds(enabled, all);
    NewRegistryAscends(Register(enabled, all));
  }

  /** The plugins of a registry are all that discovery finds on the disk. */
  lemma {:induction false} GatheredAll(load: Loader, c: Config, disk: Disk, enabled: map<string, bool>,
                                       records: Records)
    returns (all: seq<Plugin>)
    ensures all == AllPlugins(load, disk.files, RecordsIn(records, SortedKeys(records.Keys)),
                              PathsIn(c.installRoot, PluginDirs(disk.files, c.installRoot)),
                              ExternalRoots(disk.files, c.externalDirs))
    ensures var gathered := Gathered(load, c, disk, enabled, records).registry;
            gathered.Ok? ==> gathered.value == NewRegistry(Register(enabled, all))
  {
    all := AllPlugins(load, disk.files, RecordsIn(records, SortedKeys(records.Keys)),
                      PathsIn(c.installRoot, PluginDirs(disk.files, c.installRoot)),
                      ExternalRoots(disk.files, c.externalDirs));
  }

  /** So the lifecycle of a registry that is built goes up and down in the order of
      identifiers, over exactly the plugins that are enabled. */
  lemma {:induction false} RegistryLifecycle(load: Loader, c: Config, disk: Disk, enabled: map<string, bool>,
                                             listing: Listing, clock: nat -> nat, init: Check, shutdown: Check)
    requires LoadRegistry(disk.registry).Ok? ==> NoneBuiltin(LoadRegistry(disk.registry).value)
    requires Registry(load, c, disk, enabled, listing, clock).registry.Ok?
    ensures var registry := Registry(load, c, disk, enabled, listing, clock).registry.value;
            var up, down := Visit(Enabled(registry), init), Visit(Reversed(Enabled(registry)), shutdown);
            && Increasing(up.ids)
            && (up.error == None ==> forall id :: id in up.ids <==> OnIn(registry, id))
            && (up.error == None && down.error == None ==>
                && |down.ids| == |up.ids|
                && forall i :: 0 <= i < |up.ids| ==> down.ids[i] == up.ids[|up.ids| - 1 - i])
  {
    var registry := Registry(load, c, disk, enabled, listing, clock).registry.value;
    RegistryIncreases(load, c, disk, enabled, listing, clock);
    EnabledInOrder(registry);
    VisitsInOrder(Enabled(registry), init, shutdown);
    forall id ensures Visit(Enabled(registry), init).error == None ==>
                        (id in Visit(Enabled(registry), init).ids <==> OnIn(registry, id))
    {
      VisitedAreOn(registry, init, id);
    }
  }

  // ---------- Runs ----------

  /** The operation is about another plugin than `r`, and about another directory. */
  ghost predicate Spares(load: Loader, c: Config, home: Home, op: Operation, r: Record) {
    match op
    case Installing(source, staged, _) =>
      var m := LoadAt(load, home.disk.files, staged);
      && (m.Ok? ==>
          var id := PluginId(m.value.name, EXTERNAL);
          id != r.id && InstallPath(c, id) != r.installPath)
      && (source.GitUrl? ==> staged != r.installPath)
    case Uninstalling(id) =>
      var records := LoadRegistry(home.disk.registry);
      records.Ok? && id in records.value ==> records.value[id].installPath != r.installPath
    case _ => true
  }

  ghost predicate AllSpare(load: Loader, c: Config, home: Home, ops: seq<Operation>, r: Record)
    decreases |ops|
  {
    ops != [] ==> Spares(load, c, home, ops[0], r) && AllSpare(load, c, Step(load, c, home, ops[0]), ops[1..], r)
  }

  lemma {:induction false} InstallKeeps(load: Loader, c: Config, home: Home, source: InstallSource, staged: Path,
                                        now: nat, id: string, r: Record, d: Directory)
    requires KeyedDisk(home.disk)
    ensures var after := Install(load, c, home, source, staged, now).home.disk;
            && KeyedDisk(after)
            && (Spares(load, c, home, Installing(source, staged, now), r) && Holds(home.disk, id, r, d) ==>
                Holds(after, id, r, d))
  {
    var records := LoadRegistry(home.disk.registry);
    var loaded := LoadAt(load, home.disk.files, staged);
    if records.Ok? && loaded.Ok? {
      var m := loaded.value;
      var x := PluginId(m.name, EXTERNAL);
      var added := Record(External, x, m.name, m.version, m.description, InstallPath(c, x), source, now, now);
      RecordAdded(records.value, added);
      assert Install(load, c, home, source, staged, now).home.disk.registry == Stored(records.value[x := added]);
    }
  }

  lemma {:induction false} RecordAdded(records: Records, r: Record)
    requires WellKeyed(records) && r.kind == External
    requires r.id == PluginId(r.name, EXTERNAL) && r.installPath.name == Sanitize(r.id)
    ensures WellKeyed(records[r.id := r])
  {
  }

  lemma {:induction false} UninstallKeeps(load: Loader, c: Config, home: Home, gone: string, id: string, r: Record,
                                          d: Directory)
    requires KeyedDisk(home.disk)
    ensures var after := Uninstall(home, gone).home.disk;
            && KeyedDisk(after)
            && (Spares(load, c, home, Uninstalling(gone), r) && Holds(home.disk, id, r, d) ==> Holds(after, id, r, d))
  {
  }

  /** Enabling and reporting change the disk as the report that they make does. */
  lemma {:induction false} ReportKeeps(load: Loader, c: Config, home: Home, op: Operation, id: string, r: Record,
                                       d: Directory)
    requires KeyedDisk(home.disk) && (op.Enabling? || op.Reporting?)
    ensures var after := Step(load, c, home, op).disk;
            KeyedDisk(after) && (Holds(home.disk, id, r, d) ==> Holds(after, id, r, d))
  {
    RegistryKeeps(load, c, home.disk, home.enabled, op.listing, op.clock, id, r, d);
    ReportedDisk(load, c, home, op);
  }

  lemma {:induction false} ReportedDisk(load: Loader, c: Config, home: Home, op: Operation)
    requires op.Enabling? || op.Reporting?
    ensures Step(load, c, home, op).disk == Registry(load, c, home.disk, home.enabled, op.listing, op.clock).disk
  {
    if op.Enabling? {
      SwitchedHome(home, Registry(load, c, home.disk, home.enabled, op.listing, op.clock), op.id, op.on, op.id);
    }
  }

  lemma {:induction false} SwitchedHome(home: Home, report: Report, id: string, on: bool, other: string)
    ensures var after := Switched(home, report, id, on).home;
            after.disk == report.disk && (Agree(home, other) ==> Agree(after, other))
  {
  }

  lemma {:induction false} StepKeeps(load: Loader, c: Config, home: Home, op: Operation, id: string, r: Record,
                                     d: Directory)
    requires KeyedDisk(home.disk)
    ensures var after := Step(load, c, home, op).disk;
            && KeyedDisk(after)
            && (Spares(load, c, home, op, r) && Holds(home.disk, id, r, d) ==> Holds(after, id, r, d))
  {
    match op
    case Enabling(_, _, _, _) => ReportKeeps(load, c, home, op, id, r, d);
    case Reporting(_, _) => ReportKeeps(load, c, home, op, id, r, d);
    case Installing(source, staged, now) => InstallKeeps(load, c, home, source, staged, now, id, r, d);
    case Uninstalling(gone) => UninstallKeeps(load, c, home, gone, id, r, d);
  }

  lemma {:induction false} StepAgrees(load: Loader, c: Config, home: Home, op: Operation, id: string)
    requires Agree(home, id)
    ensures Agree(Step(load, c, home, op), id)
  {
    match op
    case Enabling(other, on, listing, clock) =>
      SwitchedHome(home, Registry(load, c, home.disk, home.enabled, listing, clock), other, on, id);
    case Reporting(_, _) =>
    case Installing(source, staged, now) => InstallAgrees(load, c, home, source, staged, now, id);
    case Uninstalling(gone) => UninstallAgrees(home, gone, id);
  }

  lemma {:induction false} InstallAgrees(load: Loader, c: Config, home: Home, source: InstallSource, staged: Path,
                                         now: nat, id: string)
    requires Agree(home, id)
    ensures Agree(Install(load, c, home, source, staged, now).home, id)
  {
  }

  lemma {:induction false} UninstallAgrees(home: Home, gone: string, id: string)
    requires Agree(home, id)
    ensures Agree(Uninstall(home, gone).home, id)
  {
  }

  /** Records stay well keyed over every run, and where both enabled maps agree they still do;
      and an installed external plugin keeps its record and its files, wherever they are,
      unless it or a plugin with the same place to install to is installed or uninstalled. */
  lemma {:induction false} RunKeeps(load: Loader, c: Config, home: Home, ops: seq<Operation>,
                                    id: string, r: Record, d: Directory)
    requires KeyedDisk(home.disk)
    ensures var after := Run(load, c, home, ops);
            && KeyedDisk(after.disk)
            && (AllSpare(load, c, home, ops, r) && Holds(home.disk, id, r, d) ==> Holds(after.disk, id, r, d))
            && forall k :: Agree(home, k) ==> Agree(after, k)
    decreases |ops|
  {
    if ops != [] {
      var next := Step(load, c, home, ops[0]);
      StepKeeps(load, c, home, ops[0], id, r, d);
      forall k | Agree(home, k) ensures Agree(next, k) {
        StepAgrees(load, c, home, ops[0], k);
      }
      RunKeeps(load, c, next, ops[1..], id, r, d);
    }
  }

  /** Uninstalling a plugin right after its first installation from a local directory
      restores files, records and both enabled maps. */
  lemma {:induction false} InstallThenUninstall(load: Loader, c: Config, home: Home, path: Path, now: nat)
    requires LoadAt(load, home.disk.files, path).Ok? && LoadRegistry(home.disk.registry).Ok?
    requires var id := PluginId(LoadAt(load, home.disk.files, path).value.name, EXTERNAL);
             && id !in LoadRegistry(home.disk.registry).value && InstallPath(c, id) !in home.disk.files
             && id !in home.settings && id !in home.enabled
    ensures var id := PluginId(LoadAt(load, home.disk.files, path).value.name, EXTERNAL);
            var installed := Install(load, c, home, LocalPath(path), path, now);
            var gone := Uninstall(installed.home, id);
            && installed.error == None && gone.error == None
            && gone.home.disk.files == home.disk.files
            && LoadRegistry(gone.home.disk.registry) == LoadRegistry(home.disk.registry)
            && gone.home.settings == home.settings && gone.home.enabled == home.enabled
  {
    var id := PluginId(LoadAt(load, home.disk.files, path).value.name, EXTERNAL);
    var records := LoadRegistry(home.disk.registry).value;
    var installed := Install(load, c, home, LocalPath(path), path, now).home;
    var after := LoadRegistry(installed.disk.registry).value;
    assert after - {id} == records;
    assert installed.disk.files - {InstallPath(c, id)} == home.disk.files;
    assert installed.settings - {id} == home.settings && installed.enabled - {id} == home.enabled;
  }

  // ---------- What an installation leads to ----------

  /** Nothing loads without a manifest. */
  ghost predicate NeedsManifest(load: Loader) {
    forall path, d :: load(path, d).Ok? ==> HasManifest(d)
  }

  predicate LoadsNamed(load: Loader, path: Path, d: Directory, name: string) {
    load(path, d).Ok? && load(path, d).value.name == name
  }

  /** A successful installation stores a record whose directory holds what was staged, unless
      the plugin was staged at the very place it is installed to: that directory is emptied or
      removed, the installation reports success all the same, and the next discovery drops
      the record. */
  lemma {:induction false} InstallLeaves(load: Loader, c: Config, home: Home, source: InstallSource, staged: Path,
                                         now: nat)
    requires NeedsManifest(load) && Install(load, c, home, source, staged, now).error == None
    ensures var m := LoadAt(load, home.disk.files, staged);
            var after := Install(load, c, home, source, staged, now).home.disk;
            var records := LoadRegistry(after.registry);
            && m.Ok? && records.Ok?
            && var id := PluginId(m.value.name, EXTERNAL);
            && var path := InstallPath(c, id);
            && id in records.value && records.value[id].installPath == path
            && (Gone(after.files, records.value[id]) <==> staged == path)
            && (staged != path ==> path in after.files && after.files[path] == home.disk.files[staged])
            && (staged == path && source.LocalPath? ==> path in after.files && after.files[path] == map[])
  {
    var m := LoadAt(load, home.disk.files, staged).value;
    assert HasManifest(home.disk.files[staged]);
  }

  /** Otherwise the plugin is listed, and enabled, in the next registry, if it still loads
      under its name where it is installed. */
  lemma {:induction false} InstallIsListed(load: Loader, c: Config, home: Home, source: InstallSource, staged: Path,
                                           now: nat, listing: Listing, clock: nat -> nat)
    requires NeedsManifest(load) && KeyedDisk(home.disk) && Install(load, c, home, source, staged, now).error == None
    requires var m := LoadAt(load, home.disk.files, staged).value;
             var path := InstallPath(c, PluginId(m.name, EXTERNAL));
             staged != path && LoadsNamed(load, path, home.disk.files[staged], m.name)
    ensures var id := PluginId(LoadAt(load, home.disk.files, staged).value.name, EXTERNAL);
            var after := Install(load, c, home, source, staged, now).home;
            var registry := Registry(load, c, after.disk, after.enabled, listing, clock).registry;
            registry.Ok? ==> exists r :: r in registry.value && r.plugin.id == id && r.enabled
  {
    var m := LoadAt(load, home.disk.files, staged).value;
    var id := PluginId(m.name, EXTERNAL);
    var after := Install(load, c, home, source, staged, now).home;
    var d := home.disk.files[staged];
    var r := LoadRegistry(after.disk.registry).value[id];
    InstallLeaves(load, c, home, source, staged, now);
    InstallKeeps(load, c, home, source, staged, now, id, r, d);
    assert Holds(after.disk, id, r, d);
    SyncKeeps(load, c, after.disk, listing, clock, id, r, d);
    var synced := Sync(load, c, after.disk, listing, clock);
    if Registry(load, c, after.disk, after.enabled, listing, clock).registry.Ok? {
      HeldIsListed(load, c, synced.disk, after.enabled, LoadRegistry(synced.disk.registry).value, id, r, d,
                   load(r.installPath, d).value);
    }
  }

  /** An external plugin that is held and loads is in the registry, as enabled as configured. */
  lemma {:induction false} HeldIsListed(load: Loader, c: Config, disk: Disk, enabled: map<string, bool>,
                                        records: Records, id: string, r: Record, d: Directory, m: Manifest)
    requires LoadRegistry(disk.registry) == Ok(records) && WellKeyed(records) && Holds(disk, id, r, d)
    requires load(r.installPath, d) == Ok(m) && id == PluginId(m.name, EXTERNAL)
    requires id in enabled && enabled[id]
    requires Gathered(load, c, disk, enabled, records).registry.Ok?
    ensures exists q :: q in Gathered(load, c, disk, enabled, records).registry.value && q.plugin.id == id && q.enabled
  {
    var order := SortedKeys(records.Keys);
    var roots := PathsIn(c.installRoot, PluginDirs(disk.files, c.installRoot));
    RecordsListed(records, order);
    HeldLoads(load, disk, records, RecordsIn(records, order), id, r, d, m);
    var p := FoundAmong(load, disk.files, RecordsIn(records, order), roots, id, r);
    var all := GatheredAll(load, c, disk, enabled, records);
    assert p in all;
    RegisteredIn(enabled, all, p);
  }

  lemma {:induction false} HeldLoads(load: Loader, disk: Disk, records: Records, rs: seq<Record>, id: string,
                                     r: Record, d: Directory, m: Manifest)
    requires LoadRegistry(disk.registry) == Ok(records) && WellKeyed(records) && Holds(disk, id, r, d)
    requires load(r.installPath, d) == Ok(m) && id == PluginId(m.name, EXTERNAL) && Lists(rs, records)
    ensures OneKindEach(rs) && r in rs && !Gone(disk.files, r) && LoadsAs(load, disk.files, rs, r.installPath, id)
  {
    assert r in rs;
    KindsOfPaths(records, rs);
    KindAtOf(rs, r);
  }

  lemma {:induction false} FoundAmong(load: Loader, files: Files, rs: seq<Record>, roots: seq<Path>, id: string,
                                      r: Record)
    returns (p: Plugin)
    requires OneKindEach(rs) && r in rs && !Gone(files, r) && LoadsAs(load, files, rs, r.installPath, id)
    ensures p in ScanRecords(load, files, ScanDirs(load, files, rs, roots), rs).plugins && p.id == id
  {
    var dirs := ScanDirs(load, files, rs, roots);
    FoundExactly(load, files, rs, roots, id);
    ScanDirsKeeps(load, files, rs, roots);
    ScanRecordsKeeps(load, files, dirs, rs);
    p :| p in ScanRecords(load, files, dirs, rs).plugins && p.id == id;
  }

  lemma {:induction false} KindsOfPaths(records: Records, rs: seq<Record>)
    requires WellKeyed(records) && Lists(rs, records)
    ensures OneKindEach(rs)
  {
    forall r, q | r in rs && q in rs && r.installPath == q.installPath ensures r.kind == q.kind {
      if r.kind != q.kind {
        KindsApart(r.name, r.kind, q.name, q.kind);
      }
    }
  }

  lemma {:induction false} RegisteredIn(enabled: map<string, bool>, all: seq<Plugin>, p: Plugin)
    requires p in all && p.id in enabled && enabled[p.id]
    ensures exists q :: q in NewRegistry(Register(enabled, all)) && q.plugin.id == p.id && q.enabled
  {
    var registered := Register(enabled, all);
    var i :| 0 <= i < |all| && all[i] == p;
    SortBySorts(registered, RegisteredId);
    assert registered[i] in multiset(registered);
    assert registered[i] in NewRegistry(registered);
  }

  /** Uninstalling one of two installed plugins removes the other's files exactly when both
      are installed below one root and their names clash. */
  lemma {:induction false} UninstallTakesOther(home: Home, a: string, b: string)
    requires KeyedDisk(home.disk) && LoadRegistry(home.disk.registry).Ok?
    requires var records := LoadRegistry(home.disk.registry).value;
             var x, y := PluginId(a, EXTERNAL), PluginId(b, EXTERNAL);
             && x in records && y in records && x != y
             && records[x].kind == External && records[y].kind == External
             && records[y].installPath in home.disk.files
    ensures var records := LoadRegistry(home.disk.registry).value;
            var p, q := records[PluginId(a, EXTERNAL)].installPath, records[PluginId(b, EXTERNAL)].installPath;
            q in Uninstall(home, PluginId(a, EXTERNAL)).home.disk.files
            <==> p.parent != q.parent || Sanitize(a) != Sanitize(b)
  {
    var records := LoadRegistry(home.disk.registry).value;
    PathsClash(Config("", "", false, []), a, b, External);
  }
}
