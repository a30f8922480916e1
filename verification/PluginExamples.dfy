/** Disks and homes on which the plugin manager does not do what one expects: an input for
    each of the failing cases of `PluginSyncFixpoint` and `PluginRuns`. */
module PluginExamples {
  import opened Text
  import opened Plugins
  import opened PluginSync
  import opened PluginSyncFixpoint
  import opened PluginManager

  const CONFIG := Config("installed", "bundled", true, [])
  const VERSION_FILE := "version"

  function ManifestOf(name: string, version: string): Manifest {
    Manifest(name, version, "", false, Hooks([], [], []), Lifecycle([], []), [])
  }

  /** A directory whose manifest is the plugin's name, beside a file with its version. */
  function DirectoryOf(name: string, version: string): Directory {
    map[MANIFEST_FILE := name, VERSION_FILE := version]
  }

  /** Two directories `x` and `y` below `root`. */
  function Two(root: string, a: Directory, b: Directory): Files {
    map[Path(root, "x") := a, Path(root, "y") := b]
  }

  /** Reads such directories. */
  function Load(path: Path, d: Directory): Result<Manifest, PluginError> {
    if MANIFEST_FILE in d && VERSION_FILE in d then Ok(ManifestOf(d[MANIFEST_FILE], d[VERSION_FILE]))
    else Err(NotFound(path.name))
  }

  lemma {:induction false} Loads(path: Path, name: string, version: string)
    ensures Load(path, DirectoryOf(name, version)) == Ok(ManifestOf(name, version))
    ensures HasManifest(DirectoryOf(name, version))
  {
    assert MANIFEST_FILE[0] != VERSION_FILE[0];
  }

  /** The names `a/b` and `a:b` belong to different plugins that are installed to one place. */
  lemma {:induction false} NamesClash(kind: Kind)
    ensures PluginId("a/b", Marketplace(kind)) != PluginId("a:b", Marketplace(kind))
    ensures InstallPath(CONFIG, PluginId("a/b", Marketplace(kind))) ==
            InstallPath(CONFIG, PluginId("a:b", Marketplace(kind)))
  {
    assert PluginId("a/b", Marketplace(kind))[1] == '/' && PluginId("a:b", Marketplace(kind))[1] == ':';
    assert Sanitize("a/b") == "a-b" && Sanitize("a:b") == "a-b";
    PathsClash(CONFIG, "a/b", "a:b", kind);
  }

  // ---------- Bundled plugins ----------

  /** Two bundled directories of one plugin, in different versions: the next sync is not idle. */
  lemma {:induction false} VersionsFlip(clock: nat -> nat, later: nat -> nat)
    ensures var files := Two("bundled", DirectoryOf("p", "1"), DirectoryOf("p", "2"));
            var out := Sync(Load, CONFIG, Disk(files, Missing), Found(["x", "y"]), clock);
            && out.result == None && LoadRegistry(out.disk.registry).Ok?
            && !Idle(Load, CONFIG, out.disk, ["x", "y"], later)
  {
    var files := Two("bundled", DirectoryOf("p", "1"), DirectoryOf("p", "2"));
    var ms := [ManifestOf("p", "1"), ManifestOf("p", "2")];
    TwoSources(files, "p", "1", "p", "2");
    assert ms[0].version != ms[1].version && BundledId(ms[0]) == BundledId(ms[1]);
    SecondSync(Load, CONFIG, Disk(files, Missing), ["x", "y"], ms, clock, later);
  }

  lemma {:induction false} TwoSources(files: Files, a: string, v: string, b: string, w: string)
    requires Path("bundled", "x") in files && files[Path("bundled", "x")] == DirectoryOf(a, v)
    requires Path("bundled", "y") in files && files[Path("bundled", "y")] == DirectoryOf(b, w)
    ensures Sources(Load, CONFIG, files, ["x", "y"], [ManifestOf(a, v), ManifestOf(b, w)])
    ensures KeepsValid(Load, CONFIG, files, ["x", "y"], [ManifestOf(a, v), ManifestOf(b, w)])
  {
    Loads(Path("bundled", "x"), a, v);
    Loads(Path("bundled", "y"), b, w);
    Loads(Target(CONFIG, ManifestOf(a, v)), a, v);
    Loads(Target(CONFIG, ManifestOf(b, w)), b, w);
  }

  /** The bundled plugin `a/b` has become `a:b`: the sync copies the new one over the old and
      then removes it with the old record, and still reports success. */
  lemma {:induction false} RenamedPluginIsRemoved(clock: nat -> nat, later: nat -> nat, stale: Record)
    requires stale.kind == Bundled && stale.installPath == InstallPath(CONFIG, PluginId("a/b", BUNDLED))
    ensures var x := Path("bundled", "x");
            var files := map[x := DirectoryOf("a:b", "1"), stale.installPath := DirectoryOf("a/b", "1")];
            var disk := Disk(files, Stored(map[PluginId("a/b", BUNDLED) := stale]));
            var out := Sync(Load, CONFIG, disk, Found(["x"]), clock);
            && out.result == None && LoadRegistry(out.disk.registry).Ok?
            && PluginId("a:b", BUNDLED) in LoadRegistry(out.disk.registry).value
            && InstallPath(CONFIG, PluginId("a:b", BUNDLED)) !in out.disk.files
            && !Idle(Load, CONFIG, out.disk, ["x"], later)
  {
    var files := map[Path("bundled", "x") := DirectoryOf("a:b", "1"), stale.installPath := DirectoryOf("a/b", "1")];
    var records := map[PluginId("a/b", BUNDLED) := stale];
    var disk := Disk(files, Stored(records));
    var ms := [ManifestOf("a:b", "1")];
    NamesClash(Bundled);
    Loads(Path("bundled", "x"), "a:b", "1");
    Loads(Target(CONFIG, ms[0]), "a:b", "1");
    OneSource(files, ms[0]);
    StaleClash(records, ms, stale);
    SecondSync(Load, CONFIG, disk, ["x"], ms, clock, later);
    var p, q := Looped(Load, CONFIG, disk, ["x"], ms, clock);
    TargetSurvives(Load, CONFIG, p, records, ["x"], ms, 0);
    assert BundledId(ms[0]) in Ids(ms, 1);
  }

  lemma {:induction false} OneSource(files: Files, m: Manifest)
    requires Path("bundled", "x") in files && Load(Path("bundled", "x"), files[Path("bundled", "x")]) == Ok(m)
    requires Load(Target(CONFIG, m), files[Path("bundled", "x")]).Ok?
    ensures Sources(Load, CONFIG, files, ["x"], [m]) && KeepsValid(Load, CONFIG, files, ["x"], [m])
  {
  }

  lemma {:induction false} StaleClash(records: Records, ms: seq<Manifest>, stale: Record)
    requires records == map[PluginId("a/b", BUNDLED) := stale] && ms == [ManifestOf("a:b", "1")]
    requires stale.kind == Bundled && stale.installPath == InstallPath(CONFIG, PluginId("a/b", BUNDLED))
    ensures NoStaleSource(CONFIG, records, ["x"], ms) && !NoStaleClash(CONFIG, records, ms)
    ensures !(forall id :: id in records && records[id].kind == Bundled && id !in Ids(ms, |ms|) ==>
                             records[id].installPath != Target(CONFIG, ms[0]))
  {
    NamesClash(Bundled);
    var id := PluginId("a/b", BUNDLED);
    assert Ids(ms, 0) == {};
    IdsGrow(ms, 0);
    assert id in records && id !in Ids(ms, |ms|) && records[id].installPath == Target(CONFIG, ms[0]);
  }

  /** The stale plugin `q` was recorded at a directory of the bundled root where now `p` is: the
      sync removes it from there, and still reports success. */
  lemma {:induction false} SourceIsRemoved(clock: nat -> nat, stale: Record)
    requires stale.kind == Bundled && stale.installPath == Path("bundled", "x")
    ensures var disk := Disk(map[Path("bundled", "x") := DirectoryOf("p", "1")],
                             Stored(map[PluginId("q", BUNDLED) := stale]));
            var out := Sync(Load, CONFIG, disk, Found(["x"]), clock);
            out.result == None && Path("bundled", "x") !in out.disk.files
  {
    var files := map[Path("bundled", "x") := DirectoryOf("p", "1")];
    var id, ms := PluginId("q", BUNDLED), [ManifestOf("p", "1")];
    Loads(Path("bundled", "x"), "p", "1");
    Loads(Target(CONFIG, ms[0]), "p", "1");
    OneSource(files, ms[0]);
    assert Ids(ms, 0) == {};
    IdsGrow(ms, 0);
    assert id[0] != BundledId(ms[0])[0];
    var p, q := Looped(Load, CONFIG, Disk(files, Stored(map[id := stale])), ["x"], ms, clock);
    assert Elsewhere(p, map[id := stale], id);
    assert p.records[id].installPath in PathsOf(p.records, StaleIds(p));
  }

  /** Two bundled plugins `a/b` and `a:b` on a fresh disk: both are recorded as installed, and
      the one directory they share holds the second. */
  lemma {:induction false} CopiesShared(clock: nat -> nat)
    ensures var files := Two("bundled", DirectoryOf("a/b", "1"), DirectoryOf("a:b", "1"));
            var out := Sync(Load, CONFIG, Disk(files, Missing), Found(["x", "y"]), clock);
            var path := InstallPath(CONFIG, PluginId("a/b", BUNDLED));
            var records := LoadRegistry(out.disk.registry);
            && out.result == None && records.Ok? && PluginId("a/b", BUNDLED) in records.value
            && records.value[PluginId("a/b", BUNDLED)].installPath == path
            && path in out.disk.files && out.disk.files[path] == DirectoryOf("a:b", "1")
  {
    var files := Two("bundled", DirectoryOf("a/b", "1"), DirectoryOf("a:b", "1"));
    var ms := [ManifestOf("a/b", "1"), ManifestOf("a:b", "1")];
    NamesClash(Bundled);
    TwoSources(files, "a/b", "1", "a:b", "1");
    TwoSynced(files, ms, clock);
    var start := Progress(files, map[], {}, false);
    var p := SyncFrom(Load, CONFIG, start, ["x", "y"], clock, 0).progress;
    assert StaleIds(p) == {};
    PrunedIdle(p);
  }

  lemma {:induction false} TwoSynced(files: Files, ms: seq<Manifest>, clock: nat -> nat)
    requires Sources(Load, CONFIG, files, ["x", "y"], ms) && Target(CONFIG, ms[0]) == Target(CONFIG, ms[1])
    requires BundledId(ms[0]) != BundledId(ms[1])
    ensures var out := SyncFrom(Load, CONFIG, Progress(files, map[], {}, false), ["x", "y"], clock, 0);
            && out.error == None && out.progress.changed
            && out.progress.files == files[Target(CONFIG, ms[0]) := files[Path("bundled", "y")]]
            && out.progress.records.Keys == out.progress.active == {BundledId(ms[0]), BundledId(ms[1])}
            && out.progress.records[BundledId(ms[0])].installPath == Target(CONFIG, ms[0])
  {
    var names := ["x", "y"];
    var x, y := Path("bundled", "x"), Path("bundled", "y");
    var p := Progress(files, map[], {}, false);
    assert LoadAt(Load, files, Path(CONFIG.bundledRoot, names[0])) == Ok(ms[0]);
    assert LoadAt(Load, files, Path(CONFIG.bundledRoot, names[1])) == Ok(ms[1]);
    SyncStep(Load, CONFIG, p, names, clock, 0, ms[0]);
    var q := SyncOne(Load, CONFIG, p, ms[0], x, clock(0));
    assert LoadAt(Load, q.files, y) == Ok(ms[1]);
    SyncStep(Load, CONFIG, q, names, clock, 1, ms[1]);
  }

  // ---------- External plugins ----------

  /** `a/b` and then `a:b` is installed, and `a/b` uninstalled: `a:b` is still recorded and
      enabled, but its directory is gone. */
  lemma {:induction false} OtherPluginIsTaken()
    ensures var x, y := Path("src", "x"), Path("src", "y");
            var files := Two("src", DirectoryOf("a/b", "1"), DirectoryOf("a:b", "1"));
            var start := Home(Disk(files, Missing), map[], map[]);
            var first := Install(Load, CONFIG, start, LocalPath(x), x, 0);
            var second := Install(Load, CONFIG, first.home, LocalPath(y), y, 1);
            var gone := Uninstall(second.home, PluginId("a/b", EXTERNAL));
            var id := PluginId("a:b", EXTERNAL);
            && first.error == None && second.error == None && gone.error == None
            && LoadRegistry(gone.home.disk.registry).Ok? && id in LoadRegistry(gone.home.disk.registry).value
            && id in gone.home.enabled && gone.home.enabled[id]
            && InstallPath(CONFIG, id) !in gone.home.disk.files
  {
    var x, y := Path("src", "x"), Path("src", "y");
    var start := Home(Disk(Two("src", DirectoryOf("a/b", "1"), DirectoryOf("a:b", "1")), Missing), map[], map[]);
    Loads(x, "a/b", "1");
    Loads(y, "a:b", "1");
    NamesClash(External);
    var first := Install(Load, CONFIG, start, LocalPath(x), x, 0).home;
    assert LoadAt(Load, first.disk.files, y) == Ok(ManifestOf("a:b", "1"));
    var second := Install(Load, CONFIG, first, LocalPath(y), y, 1).home;
    assert LoadRegistry(second.disk.registry).value[PluginId("a/b", EXTERNAL)].installPath ==
           InstallPath(CONFIG, PluginId("a/b", EXTERNAL));
  }

  /** Installing a plugin from where it is installed to empties it and reports success. */
  lemma {:induction false} InstalledFromItself(settings: map<string, bool>, enabled: map<string, bool>)
    ensures var path := InstallPath(CONFIG, PluginId("p", EXTERNAL));
            var home := Home(Disk(map[path := DirectoryOf("p", "1")], Missing), settings, enabled);
            var out := Install(Load, CONFIG, home, LocalPath(path), path, 0);
            out.error == None && out.home.disk.files == map[path := map[]]
  {
    var path := InstallPath(CONFIG, PluginId("p", EXTERNAL));
    Loads(path, "p", "1");
  }
}
