/** The operations of `PluginManager`: loops over files and records, and the changes that
    installing, uninstalling and enabling make. */
module PluginManager {
  import opened Text
  import opened Ordering
  import opened Plugins
  import opened PluginSync
  import opened PluginDiscovery
  import opened PluginRegistry

  /** `settings` is the enabled map in the settings file, `enabled` that of the configuration. */
  datatype Home = Home(disk: Disk, settings: map<string, bool>, enabled: map<string, bool>)

  // ---------- Install and uninstall ----------

  datatype Change = Change(home: Home, error: Option<PluginError>)

  function WithEnabled(home: Home, disk: Disk, id: string, on: bool): Home {
    Home(disk, home.settings[id := on], home.enabled[id := on])
  }

  /** `install` of a source that is already staged at `staged`. */
  function Install(load: Loader, c: Config, home: Home, source: InstallSource, staged: Path, now: nat): Change {
    match LoadAt(load, home.disk.files, staged)
    case Err(error) => Change(home, Some(error))
    case Ok(m) =>
      var id := PluginId(m.name, EXTERNAL);
      var copied := Copied(home.disk.files, staged, InstallPath(c, id));
      var files := if source.GitUrl? then copied - {staged} else copied;
      match LoadRegistry(home.disk.registry)
      case Err(error) => Change(home.(disk := home.disk.(files := files)), Some(error))
      case Ok(records) =>
        var r := Record(External, id, m.name, m.version, m.description, InstallPath(c, id), source, now, now);
        Change(WithEnabled(home, Disk(files, Stored(records[id := r])), id, true), None)
  }

  /** `uninstall`. */
  function Uninstall(home: Home, id: string): Change {
    match LoadRegistry(home.disk.registry)
    case Err(error) => Change(home, Some(error))
    case Ok(records) =>
      if id !in records then Change(home, Some(NotFound(id)))
      else if records[id].kind == Bundled then Change(home, Some(CommandFailed(id)))
      else
        Change(Home(Disk(home.disk.files - {records[id].installPath}, Stored(records - {id})),
                    home.settings - {id}, home.enabled - {id}), None)
  }

  // ---------- The registry report ----------

  function RecordsIn(records: Records, order: seq<string>): seq<Record>
    requires forall id :: id in order ==> id in records
    decreases |order|
  {
    if order == [] then []
    else RecordsIn(records, order[..|order| - 1]) + [records[order[|order| - 1]]]
  }

  function PathsIn(root: string, names: seq<string>): seq<Path> {
    seq(|names|, i requires 0 <= i < |names| => Path(root, names[i]))
  }

  /** `discover_installed_plugins_with_failures`, given the records in the order of their
      identifiers: what is found, and the registry left. */
  function Discover(load: Loader, disk: Disk, records: Records, order: seq<string>, roots: seq<Path>): (Disk, Scan)
    requires forall id :: id in order ==> id in records
  {
    var rs := RecordsIn(records, order);
    var s := ScanRecords(load, disk.files, ScanDirs(load, disk.files, rs, roots), rs);
    (if s.stale == {} then disk else disk.(registry := Stored(records - s.stale)), s)
  }

  ghost function ExternalRoots(files: Files, dirs: seq<string>): seq<Path> {
    if dirs == [] then []
    else PathsIn(dirs[0], PluginDirs(files, dirs[0])) + ExternalRoots(files, dirs[1..])
  }

  datatype Report = Report(disk: Disk, registry: Result<seq<Registered>, PluginError>)

  /** `plugin_registry`: sync, discover, and a sorted registry if nothing failed to load. */
  ghost function Registry(load: Loader, c: Config, disk: Disk, enabled: map<string, bool>,
                          listing: Listing, clock: nat -> nat): Report
  {
    var synced := Sync(load, c, disk, listing, clock);
    if synced.result.Some? then Report(synced.disk, Err(synced.result.value))
    else
      match LoadRegistry(synced.disk.registry)
      case Err(error) => Report(synced.disk, Err(error))
      case Ok(records) => Gathered(load, c, synced.disk, enabled, records)
  }

  ghost function Gathered(load: Loader, c: Config, disk: Disk, enabled: map<string, bool>, records: Records): Report {
    var found := Discover(load, disk, records, SortedKeys(records.Keys),
                          PathsIn(c.installRoot, PluginDirs(disk.files, c.installRoot)));
    var known := [EXAMPLE] + found.1.plugins;
    var external := ScanRoots(load, disk.files, known, ExternalRoots(disk.files, c.externalDirs));
    var failures := found.1.failures + external.failures;
    Report(found.0, if failures != [] then Err(LoadFailures(failures))
                    else Ok(NewRegistry(Register(enabled, known + external.plugins))))
  }

  /** `enable` and `disable`, which first look the plugin up in the whole registry. */
  ghost function SetEnabled(load: Loader, c: Config, home: Home, id: string, on: bool,
                            listing: Listing, clock: nat -> nat): Change
  {
    Switched(home, Registry(load, c, home.disk, home.enabled, listing, clock), id, on)
  }

  function Switched(home: Home, report: Report, id: string, on: bool): Change {
    var after := home.(disk := report.disk);
    match report.registry
    case Err(error) => Change(after, Some(error))
    case Ok(registry) =>
      if exists r :: r in registry && r.plugin.id == id then Change(WithEnabled(after, report.disk, id, on), None)
      else Change(after, Some(NotFound(id)))
  }

  /** The files, the registry file, the settings file and the configuration that a
      `PluginManager` works on. */
  class Manager {
    const load: Loader
    const config: Config
    var files: Files
    var registry: RegistryFile
    var settings: map<string, bool>
    var enabled: map<string, bool>

    ghost function Value(): Home
      reads this
    {
      Home(Disk(files, registry), settings, enabled)
    }

    constructor (load: Loader, config: Config, home: Home)
      ensures this.load == load && this.config == config
      ensures Value() == home
    {
      this.load, this.config := load, config;
      files, registry := home.disk.files, home.disk.registry;
      settings, enabled := home.settings, home.enabled;
    }

    /** `remove_dir_all` and `copy_dir_all`: the new, empty target is filled from what the source
        then holds. */
    method CopyDirAll(source: Path, target: Path)
      requires source in files
      modifies `files
      ensures files == Copied(old(files), source, target)
    {
      if target in files {
        files := files - {target};
      }
      files := files[target := map[]];
      files := files[target := files[source]];
    }

    method RemoveFiles(path: Path)
      modifies `files
      ensures files == old(files) - {path}
    {
      if path in files {
        files := files - {path};
      }
      assert files == old(files) - {path};
    }

    /** The loop over the stale records. */
    method RemoveAll(records: Records, stale: set<string>) returns (left: Records)
      requires stale <= records.Keys
      modifies `files
      ensures left == records - stale
      ensures files == old(files) - PathsOf(records, stale)
    {
      left := records;
      var todo := stale;
      ghost var done := {};
      NothingRemoved(records, files);
      while todo != {}
        invariant done !! todo && done + todo == stale
        invariant left == records - done
        invariant files == old(files) - PathsOf(records, done)
        decreases |todo|
      {
        var id :| id in todo;
        RemoveOne(old(files), records, done, id, left, files);
        var record := left[id];
        left := left - {id};
        RemoveFiles(record.installPath);
        done := done + {id};
        todo := todo - {id};
      }
      assert done == stale;
    }

    /** The removal of the stale records and of their directories. */
    method Prune(records: Records, active: set<string>, changed: bool) returns (left: Records, altered: bool)
      modifies `files
      ensures Progress(files, left, active, altered) == Pruned(Progress(old(files), records, active, changed))
    {
      var stale := set id | id in records && records[id].kind == Bundled && id !in active;
      assert stale == StaleIds(Progress(files, records, active, changed));
      left := RemoveAll(records, stale);
      altered := changed || stale != {};
    }

    /** `sync_bundled_plugins`. */
    method SyncBundledPlugins(listing: Listing, clock: nat -> nat) returns (error: Option<PluginError>)
      modifies `files, `registry
      ensures Synced(Disk(files, registry), error) ==
              Sync(load, config, Disk(old(files), old(registry)), listing, clock)
    {
      var names: seq<string>;
      match listing {
        case Found(found) => names := found;
        case PermissionDenied(denied) =>
          if config.explicitRoot {
            return Some(denied);
          }
          names := [];
        case Failed(failure) => return Some(failure);
      }
      var records: Records;
      match registry {
        case Missing => records := map[];
        case Unreadable(unreadable) => return Some(unreadable);
        case Stored(stored) => records := stored;
      }
      var changed := false;
      var active := {};
      ghost var began := Progress(files, records, {}, false);
      for i := 0 to |names|
        invariant registry == old(registry)
        invariant SyncFrom(load, config, began, names, clock, 0) ==
                  SyncFrom(load, config, Progress(files, records, active, changed), names, clock, i)
      {
        ghost var before := Progress(files, records, active, changed);
        var source := Path(config.bundledRoot, names[i]);
        var loaded := LoadAt(load, files, source);
        if loaded.Err? {
          return Some(loaded.error);
        }
        var m := loaded.value;
        var id := BundledId(m);
        active := active + {id};
        var now := clock(i);
        if !UpToDate(load, config, files, records, m) {
          var target := Target(config, m);
          CopyDirAll(source, target);
          var installedAt := if id in records then records[id].installedAt else now;
          records := records[id := Record(Bundled, id, m.name, m.version, m.description, target,
                                          LocalPath(source), installedAt, now)];
          changed := true;
        }
        SyncStep(load, config, before, names, clock, i, m);
        assert Progress(files, records, active, changed) == SyncOne(load, config, before, m, source, now);
      }
      records, changed := Prune(records, active, changed);
      if changed {
        registry := Stored(records);
      }
      return None;
    }

    /** The two loops of `discover_installed_plugins_with_failures`. */
    method DiscoverInstalledPlugins(order: seq<string>, roots: seq<Path>) returns (r: Result<Scan, PluginError>)
      requires LoadRegistry(registry).Ok? ==> forall id :: id in order ==> id in LoadRegistry(registry).value
      modifies `registry
      ensures match LoadRegistry(old(registry))
              case Err(error) => r == Err(error) && registry == old(registry)
              case Ok(records) =>
                && (forall id :: id in order ==> id in records)
                && var found := Discover(load, old(Value()).disk, records, order, roots);
                && r == Ok(found.1) && registry == found.0.registry
    {
      var loaded := LoadRegistry(registry);
      if loaded.Err? {
        return Err(loaded.error);
      }
      var records := loaded.value;
      var rs := RecordsIn(records, order);
      var s := NOTHING;
      for i := 0 to |roots|
        invariant s == ScanDirs(load, files, rs, roots[..i])
      {
        assert roots[..i + 1][..i] == roots[..i];
        var loadedPlugin := LoadDefinition(load, files, roots[i], KindAt(rs, roots[i]));
        match loadedPlugin {
          case Ok(plugin) =>
            if plugin.id !in s.seenIds {
              s := s.(seenIds := s.seenIds + {plugin.id}, seenPaths := s.seenPaths + {roots[i]},
              plugins := s.plugins + [plugin]);
            }
          case Err(error) =>
            s := s.(failures := s.failures + [Failure(roots[i], KindAt(rs, roots[i]), error)]);
        }
      }
      assert roots[..|roots|] == roots;
      ghost var dirs := s;
      for i := 0 to |rs|
        invariant s == ScanRecords(load, files, dirs, rs[..i])
      {
        assert rs[..i + 1][..i] == rs[..i];
        var record := rs[i];
        if record.installPath in s.seenPaths {
          continue;
        }
        if record.installPath !in files || !HasManifest(files[record.installPath]) {
          s := s.(stale := s.stale + {record.id});
          continue;
        }
        s := ScanOne(load, files, s, record.installPath, record.kind);
      }
      assert rs[..|rs|] == rs;
      if s.stale != {} {
        registry := Stored(records - s.stale);
      }
      return Ok(s);
    }

    /** `discover_external_directory_plugins_with_failures` over the plugin directories found. */
    method DiscoverExternalPlugins(existing: seq<Plugin>, roots: seq<Path>) returns (d: Discovery)
      ensures d == ScanRoots(load, files, existing, roots)
    {
      d := Discovery([], []);
      for i := 0 to |roots|
        invariant d == ScanRoots(load, files, existing, roots[..i])
      {
        assert roots[..i + 1][..i] == roots[..i];
        match LoadDefinition(load, files, roots[i], External) {
          case Ok(plugin) =>
            if forall p :: p in existing + d.plugins ==> p.id != plugin.id {
              d := d.(plugins := d.plugins + [plugin]);
            }
          case Err(error) =>
            d := d.(failures := d.failures + [Failure(roots[i], External, error)]);
        }
      }
      assert roots[..|roots|] == roots;
    }

    method WriteEnabledState(id: string, on: Option<bool>)
      modifies `settings
      ensures settings == if on.Some? then old(settings)[id := on.value] else old(settings) - {id}
    {
      if on.Some? {
        settings := settings[id := on.value];
      } else {
        settings := settings - {id};
      }
    }

    /** `install`. */
    method InstallPlugin(source: InstallSource, staged: Path, now: nat) returns (error: Option<PluginError>)
      modifies this
      ensures Change(Value(), error) == Install(load, config, old(Value()), source, staged, now)
    {
      var loaded := LoadAt(load, files, staged);
      if loaded.Err? {
        return Some(loaded.error);
      }
      var m := loaded.value;
      var id := PluginId(m.name, EXTERNAL);
      var target := InstallPath(config, id);
      CopyDirAll(staged, target);
      if source.GitUrl? {
        files := files - {staged};
      }
      var found := LoadRegistry(registry);
      if found.Err? {
        return Some(found.error);
      }
      var record := Record(External, id, m.name, m.version, m.description, target, source, now, now);
      registry := Stored(found.value[id := record]);
      WriteEnabledState(id, Some(true));
      enabled := enabled[id := true];
      return None;
    }

    /** `uninstall`. */
    method UninstallPlugin(id: string) returns (error: Option<PluginError>)
      modifies this
      ensures Change(Value(), error) == Uninstall(old(Value()), id)
    {
      var found := LoadRegistry(registry);
      if found.Err? {
        return Some(found.error);
      }
      var records := found.value;
      if id !in records {
        return Some(NotFound(id));
      }
      var record := records[id];
      records := records - {id};
      if record.kind == Bundled {
        return Some(CommandFailed(id));
      }
      RemoveFiles(record.installPath);
      registry := Stored(records);
      WriteEnabledState(id, None);
      enabled := enabled - {id};
      return None;
    }
  }
}
