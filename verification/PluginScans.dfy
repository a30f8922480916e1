/** What discovery makes of each directory, said by the directories alone: which plugin,
    which failure, and which of two directories of one plugin. */
module PluginScans {
  import opened Text
  import opened Ordering
  import opened Plugins
  import opened PluginDiscovery
  import opened PluginRegistry
  import opened PluginManager

  // ---------- Plugins ----------

  /** The name after which the plugins of a kind are told apart. */
  lemma {:induction false} Marketplaces()
    ensures PluginId("demo", Marketplace(External)) == "demo@external"
    ensures PluginId("demo", Marketplace(Bundled)) == "demo@bundled"
    ensures PluginId("demo", Marketplace(Builtin)) == "demo@builtin"
  {
  }

  /** A slash of either kind, an at sign and a colon become a dash in the directory's name. */
  lemma {:induction false} InstalledBelow(c: Config, id: string, i: nat)
    requires i < |id|
    ensures var path := InstallPath(c, id);
            && path.parent == c.installRoot && |path.name| == |id|
            && path.name[i] == if id[i] in "/\\@:" then '-' else id[i]
  {
  }

  /** The one built-in plugin: it brings nothing, and is off unless the user turns it on. */
  lemma {:induction false} TheBuiltin(enabled: map<string, bool>)
    ensures EXAMPLE.id == "example-builtin@builtin" && EXAMPLE.kind == Builtin && EXAMPLE.root == None
    ensures EXAMPLE.manifest.tools == [] && EXAMPLE.manifest.hooks == Hooks([], [], [])
    ensures EXAMPLE.manifest.lifecycle == Lifecycle([], [])
    ensures IsEnabled(enabled, EXAMPLE) <==> EXAMPLE.id in enabled && enabled[EXAMPLE.id]
  {
  }

  /** The plugin is what its directory `path` holds, read as one of the kind. */
  ghost predicate ReadFrom(load: Loader, files: Files, path: Path, kind: Kind, p: Plugin) {
    && path in files && load(path, files[path]) == Ok(p.manifest)
    && p.root == Some(path) && p.kind == kind && p.id == p.manifest.name + "@" + Marketplace(kind)
  }

  /** The directory is one of those listed, or that of a record of its kind that is not gone. */
  ghost predicate Listed(files: Files, all: seq<Record>, roots: seq<Path>, records: seq<Record>, path: Path,
                         kind: Kind) {
    || (path in roots && kind == KindAt(all, path))
    || exists r :: r in records && r.installPath == path && r.kind == kind && !Gone(files, r)
  }

  /** Each installed plugin is read from such a directory. */
  lemma {:induction false} DirsAreRead(load: Loader, files: Files, all: seq<Record>, roots: seq<Path>, p: Plugin)
    requires p in ScanDirs(load, files, all, roots).plugins
    ensures exists path :: path in roots && ReadFrom(load, files, path, KindAt(all, path), p)
  {
    var front, last := roots[..|roots| - 1], roots[|roots| - 1];
    if p in ScanDirs(load, files, all, front).plugins {
      DirsAreRead(load, files, all, front, p);
    } else {
      assert last in roots && ReadFrom(load, files, last, KindAt(all, last), p);
    }
  }

  lemma {:induction false} RecordsAreRead(load: Loader, files: Files, s: Scan, records: seq<Record>, p: Plugin)
    requires p in ScanRecords(load, files, s, records).plugins
    ensures p in s.plugins || exists r :: r in records && !Gone(files, r) &&
                                          ReadFrom(load, files, r.installPath, r.kind, p)
  {
    if records != [] {
      var front, last := records[..|records| - 1], records[|records| - 1];
      if p in ScanRecords(load, files, s, front).plugins {
        RecordsAreRead(load, files, s, front, p);
      } else {
        assert last in records && ReadFrom(load, files, last.installPath, last.kind, p);
      }
    }
  }

  lemma {:induction false} InstalledAreRead(load: Loader, files: Files, records: seq<Record>, roots: seq<Path>,
                                            p: Plugin)
    requires p in ScanRecords(load, files, ScanDirs(load, files, records, roots), records).plugins
    ensures exists path, kind ::
              Listed(files, records, roots, records, path, kind) && ReadFrom(load, files, path, kind, p)
  {
    RecordsAreRead(load, files, ScanDirs(load, files, records, roots), records, p);
    if p in ScanDirs(load, files, records, roots).plugins {
      DirsAreRead(load, files, records, roots, p);
      var path :| path in roots && ReadFrom(load, files, path, KindAt(records, path), p);
      assert Listed(files, records, roots, records, path, KindAt(records, path));
    } else {
      var r :| r in records && !Gone(files, r) && ReadFrom(load, files, r.installPath, r.kind, p);
      assert Listed(files, records, roots, records, r.installPath, r.kind);
    }
  }

  /** A directory has the kind of the first record at it, and is external without one. */
  lemma {:induction false} KindOfFirst(records: seq<Record>, path: Path, i: nat)
    requires i < |records| && records[i].installPath == path
    requires forall j :: 0 <= j < i ==> records[j].installPath != path
    ensures KindAt(records, path) == records[i].kind
  {
    if i > 0 { KindOfFirst(records[1..], path, i - 1); }
  }

  lemma {:induction false} KindOfNone(records: seq<Record>, path: Path)
    requires forall i :: 0 <= i < |records| ==> records[i].installPath != path
    ensures KindAt(records, path) == External
  {
    if records != [] { KindOfNone(records[1..], path); }
  }

  // ---------- Which directory wins ----------

  /** A directory to look at, and as what. */
  datatype Place = Place(path: Path, kind: Kind)

  ghost predicate LoadsHere(load: Loader, files: Files, place: Place, id: string) {
    exists p :: ReadFrom(load, files, place.path, place.kind, p) && p.id == id
  }

  /** The plugin is read from the place, and no place before it loads under its identifier. */
  ghost predicate FirstAt(load: Loader, files: Files, places: seq<Place>, i: nat, p: Plugin) {
    && i < |places| && ReadFrom(load, files, places[i].path, places[i].kind, p)
    && forall j :: 0 <= j < i ==> !LoadsHere(load, files, places[j], p.id)
  }

  /** The plugins are exactly those, and every place that counts as seen is among the places. */
  ghost predicate FirstsOf(load: Loader, files: Files, places: seq<Place>, s: Scan) {
    && (forall p :: p in s.plugins <==> exists i: nat :: FirstAt(load, files, places, i, p))
    && (forall id :: id in s.seenIds <==> exists j :: 0 <= j < |places| && LoadsHere(load, files, places[j], id))
  }

  lemma {:induction false} ReadHere(load: Loader, files: Files, place: Place, p: Plugin)
    ensures ReadFrom(load, files, place.path, place.kind, p) <==>
            LoadDefinition(load, files, place.path, place.kind) == Ok(p)
  {
  }

  lemma {:induction false} OneMorePlace(load: Loader, files: Files, places: seq<Place>, s: Scan, place: Place)
    requires FirstsOf(load, files, places, s)
    ensures FirstsOf(load, files, places + [place], ScanOne(load, files, s, place.path, place.kind))
  {
    var all, t := places + [place], ScanOne(load, files, s, place.path, place.kind);
    forall p ensures p in t.plugins <==> exists i: nat :: FirstAt(load, files, all, i, p) {
      ReadHere(load, files, place, p);
      FirstAmong(load, files, places, place, p);
      assert p.id in s.seenIds <==> exists j :: 0 <= j < |places| && LoadsHere(load, files, places[j], p.id);
    }
    forall id ensures id in t.seenIds <==> exists j :: 0 <= j < |all| && LoadsHere(load, files, all[j], id) {
      LoadsAmong(load, files, places, place, id);
      if p :| ReadFrom(load, files, place.path, place.kind, p) && p.id == id {
        ReadHere(load, files, place, p);
      }
      var loaded := LoadDefinition(load, files, place.path, place.kind);
      if loaded.Ok? {
        ReadHere(load, files, place, loaded.value);
      }
    }
  }

  lemma {:induction false} FirstAmong(load: Loader, files: Files, places: seq<Place>, place: Place, p: Plugin)
    ensures (exists i: nat :: FirstAt(load, files, places + [place], i, p)) <==>
            || (exists i: nat :: FirstAt(load, files, places, i, p))
            || (ReadFrom(load, files, place.path, place.kind, p) &&
                !exists j :: 0 <= j < |places| && LoadsHere(load, files, places[j], p.id))
  {
    var all := places + [place];
    assert forall j :: 0 <= j < |places| ==> all[j] == places[j];
    forall i: nat | i < |places| ensures FirstAt(load, files, all, i, p) <==> FirstAt(load, files, places, i, p) {
    }
    assert FirstAt(load, files, all, |places|, p) <==>
           ReadFrom(load, files, place.path, place.kind, p) &&
           forall j :: 0 <= j < |places| ==> !LoadsHere(load, files, places[j], p.id);
  }

  lemma {:induction false} LoadsAmong(load: Loader, files: Files, places: seq<Place>, place: Place, id: string)
    ensures (exists j :: 0 <= j < |places + [place]| && LoadsHere(load, files, (places + [place])[j], id)) <==>
            || (exists j :: 0 <= j < |places| && LoadsHere(load, files, places[j], id))
            || LoadsHere(load, files, place, id)
  {
    var all := places + [place];
    assert forall j :: 0 <= j < |places| ==> all[j] == places[j];
    assert all[|places|] == place;
  }

  function DirPlaces(records: seq<Record>, roots: seq<Path>): seq<Place> {
    seq(|roots|, i requires 0 <= i < |roots| => Place(roots[i], KindAt(records, roots[i])))
  }

  lemma {:induction false} DirsExactly(load: Loader, files: Files, records: seq<Record>, roots: seq<Path>)
    ensures FirstsOf(load, files, DirPlaces(records, roots), ScanDirs(load, files, records, roots))
  {
    if roots != [] {
      var n := |roots| - 1;
      DirsExactly(load, files, records, roots[..n]);
      OneMorePlace(load, files, DirPlaces(records, roots[..n]), ScanDirs(load, files, records, roots[..n]),
                   Place(roots[n], KindAt(records, roots[n])));
      assert DirPlaces(records, roots) == DirPlaces(records, roots[..n]) + [Place(roots[n], KindAt(records, roots[n]))];
    }
  }

  /** The directories of the records that are not gone. */
  function RecordPlaces(files: Files, records: seq<Record>): seq<Place> {
    if records == [] then []
    else
      var last := records[|records| - 1];
      RecordPlaces(files, records[..|records| - 1]) +
      if Gone(files, last) then [] else [Place(last.installPath, last.kind)]
  }

  /** A record at a path that counts as seen brings nothing new. */
  lemma {:induction false} SeenRecord(load: Loader, files: Files, all: seq<Record>, s: Scan, r: Record)
    requires OneKindEach(all) && r in all && PathsLoaded(load, files, all, s) && r.installPath in s.seenPaths
    ensures ScanOne(load, files, s, r.installPath, r.kind) == s
  {
    KindAtOf(all, r);
    var m := LoadAt(load, files, r.installPath).value;
    assert LoadsAs(load, files, all, r.installPath, PluginId(m.name, Marketplace(r.kind)));
  }

  lemma {:induction false} RecordsExactly(load: Loader, files: Files, all: seq<Record>, places: seq<Place>, s: Scan,
                                          records: seq<Record>)
    requires OneKindEach(all) && (forall r :: r in records ==> r in all)
    requires PathsLoaded(load, files, all, s) && FirstsOf(load, files, places, s)
    requires forall path :: path in s.seenPaths ==> path in files && HasManifest(files[path])
    ensures var t := ScanRecords(load, files, s, records);
            && FirstsOf(load, files, places + RecordPlaces(files, records), t)
            && PathsLoaded(load, files, all, t)
            && forall path :: path in t.seenPaths ==> path in files && HasManifest(files[path])
  {
    if records == [] {
      assert places + [] == places;
    } else {
      var front, last := records[..|records| - 1], records[|records| - 1];
      var t := ScanRecords(load, files, s, front);
      assert last in records && forall r :: r in front ==> r in records;
      RecordsExactly(load, files, all, places, s, front);
      RecordsFind(load, files, all, s, records, "");
      var before, place := places + RecordPlaces(files, front), Place(last.installPath, last.kind);
      if !Gone(files, last) {
        if last.installPath in t.seenPaths { SeenRecord(load, files, all, t, last); }
        OneMorePlace(load, files, before, t, place);
        Assoc(places, RecordPlaces(files, front), [place]);
      } else {
        assert RecordPlaces(files, records) == RecordPlaces(files, front);
      }
    }
  }

  /** Of the installed plugins, exactly those are found whose directory is the first to load
      under their identifier: first the directories of the install root, then those of the
      records that are not gone. */
  lemma {:induction false} InstalledExactly(load: Loader, files: Files, records: seq<Record>, roots: seq<Path>)
    requires OneKindEach(records) && AllPresent(files, roots)
    ensures FirstsOf(load, files, DirPlaces(records, roots) + RecordPlaces(files, records),
                     ScanRecords(load, files, ScanDirs(load, files, records, roots), records))
  {
    DirsExactly(load, files, records, roots);
    DirsFind(load, files, records, roots, "");
    DirsSeen(load, files, records, roots);
    RecordsExactly(load, files, records, DirPlaces(records, roots), ScanDirs(load, files, records, roots), records);
  }

  // ---------- External directories ----------

  /** The directory loads as the external plugin `id`. */
  ghost predicate LoadsExternal(load: Loader, files: Files, path: Path, id: string) {
    exists p :: ReadFrom(load, files, path, External, p) && p.id == id
  }

  /** The identifier is new, and the directory is the first that loads under it. */
  ghost predicate FirstNew(load: Loader, files: Files, existing: seq<Plugin>, roots: seq<Path>, i: nat, p: Plugin) {
    && i < |roots| && ReadFrom(load, files, roots[i], External, p)
    && (forall q :: q in existing ==> q.id != p.id)
    && forall j :: 0 <= j < i ==> !LoadsExternal(load, files, roots[j], p.id)
  }

  lemma {:induction false} Loaded(load: Loader, files: Files, path: Path, p: Plugin)
    ensures ReadFrom(load, files, path, External, p) <==> LoadDefinition(load, files, path, External) == Ok(p)
  {
  }

  /** Found are exactly the plugins with a new identifier, each from the first directory that
      loads as it. */
  lemma {:induction false} ExternalExactly(load: Loader, files: Files, existing: seq<Plugin>, roots: seq<Path>,
                                           p: Plugin)
    ensures p in ScanRoots(load, files, existing, roots).plugins <==>
            exists i: nat :: FirstNew(load, files, existing, roots, i, p)
  {
    if roots != [] {
      var n := |roots| - 1;
      var front, last := roots[..n], roots[n];
      var d := ScanRoots(load, files, existing, front);
      ExternalExactly(load, files, existing, front, p);
      FrontNew(load, files, existing, roots, p);
      Loaded(load, files, last, p);
      if ReadFrom(load, files, last, External, p) && forall q :: q in existing ==> q.id != p.id {
        KnownId(load, files, existing, front, p.id);
        LastNew(load, files, existing, roots, p);
      }
    }
  }

  lemma {:induction false} LastNew(load: Loader, files: Files, existing: seq<Plugin>, roots: seq<Path>, p: Plugin)
    requires roots != [] && ReadFrom(load, files, roots[|roots| - 1], External, p)
    requires forall q :: q in existing ==> q.id != p.id
    ensures FirstNew(load, files, existing, roots, |roots| - 1, p) <==>
            !KnownIn(load, files, roots[..|roots| - 1], p.id)
  {
    var n := |roots| - 1;
    assert forall j :: 0 <= j < n ==> roots[..n][j] == roots[j];
  }

  lemma {:induction false} FrontNew(load: Loader, files: Files, existing: seq<Plugin>, roots: seq<Path>, p: Plugin)
    requires roots != []
    ensures var n := |roots| - 1;
            (exists i: nat :: FirstNew(load, files, existing, roots, i, p)) <==>
            || (exists i: nat :: FirstNew(load, files, existing, roots[..n], i, p))
            || FirstNew(load, files, existing, roots, n, p)
  {
    var n := |roots| - 1;
    forall i: nat | i < n
      ensures FirstNew(load, files, existing, roots, i, p) <==> FirstNew(load, files, existing, roots[..n], i, p)
    {
      assert roots[..n][i] == roots[i];
      assert forall j :: 0 <= j < i ==> roots[..n][j] == roots[j];
    }
  }

  ghost predicate KnownIn(load: Loader, files: Files, roots: seq<Path>, id: string) {
    exists j :: 0 <= j < |roots| && LoadsExternal(load, files, roots[j], id)
  }

  /** An identifier that is not new is known from a directory that loads under it. */
  lemma {:induction false} KnownId(load: Loader, files: Files, existing: seq<Plugin>, roots: seq<Path>, id: string)
    requires forall q :: q in existing ==> q.id != id
    ensures (exists q :: q in ScanRoots(load, files, existing, roots).plugins && q.id == id)
            <==> KnownIn(load, files, roots, id)
  {
    if roots != [] {
      var n := |roots| - 1;
      var front, last := roots[..n], roots[n];
      var d := ScanRoots(load, files, existing, front);
      KnownId(load, files, existing, front, id);
      KnownStep(load, files, roots, id);
      var loaded := LoadDefinition(load, files, last, External);
      if loaded.Ok? {
        Loaded(load, files, last, loaded.value);
      }
      LastKnown(load, files, existing, d, last, id);
    }
  }

  lemma {:induction false} KnownStep(load: Loader, files: Files, roots: seq<Path>, id: string)
    requires roots != []
    ensures KnownIn(load, files, roots, id) <==>
            KnownIn(load, files, roots[..|roots| - 1], id) || LoadsExternal(load, files, roots[|roots| - 1], id)
  {
    var n := |roots| - 1;
    if j :| 0 <= j < |roots| && LoadsExternal(load, files, roots[j], id) {
      if j < n { assert roots[..n][j] == roots[j]; }
    }
    if j :| 0 <= j < n && LoadsExternal(load, files, roots[..n][j], id) {
      assert roots[..n][j] == roots[j];
    }
  }

  lemma {:induction false} LastKnown(load: Loader, files: Files, existing: seq<Plugin>, d: Discovery, last: Path,
                                     id: string)
    requires forall q :: q in existing ==> q.id != id
    ensures var after := ScanRoot(load, files, existing, d, last);
            (exists q :: q in after.plugins && q.id == id) <==>
            (exists q :: q in d.plugins && q.id == id) || LoadsExternal(load, files, last, id)
  {
    var after := ScanRoot(load, files, existing, d, last);
    var loaded := LoadDefinition(load, files, last, External);
    if loaded.Ok? {
      Loaded(load, files, last, loaded.value);
      if after.plugins != d.plugins {
        assert after.plugins == d.plugins + [loaded.value];
        assert loaded.value in after.plugins;
      }
    }
    if p :| ReadFrom(load, files, last, External, p) && p.id == id {
      Loaded(load, files, last, p);
    }
  }

  // ---------- Failures ----------

  /** Reading the directory ends with the error. */
  ghost predicate Fails(load: Loader, files: Files, f: Failure) {
    if f.root in files then load(f.root, files[f.root]) == Err(f.error) else f.error == NotFound(f.root.name)
  }

  ghost predicate SeenLoad(load: Loader, files: Files, s: Scan) {
    forall path :: path in s.seenPaths ==> path in files && load(path, files[path]).Ok?
  }

  lemma {:induction false} DirFailures(load: Loader, files: Files, all: seq<Record>, roots: seq<Path>, f: Failure)
    ensures var s := ScanDirs(load, files, all, roots);
            && SeenLoad(load, files, s)
            && (f in s.failures <==> f.root in roots && f.kind == KindAt(all, f.root) && Fails(load, files, f))
  {
    if roots != [] {
      var front, last := roots[..|roots| - 1], roots[|roots| - 1];
      DirFailures(load, files, all, front, f);
      assert f.root in roots <==> f.root in front || f.root == last;
    }
  }

  ghost predicate OfRecord(files: Files, records: seq<Record>, f: Failure) {
    exists r :: r in records && r.installPath == f.root && r.kind == f.kind && !Gone(files, r)
  }

  lemma {:induction false} RecordFailures(load: Loader, files: Files, s: Scan, records: seq<Record>, f: Failure)
    requires SeenLoad(load, files, s)
    ensures var t := ScanRecords(load, files, s, records);
            && SeenLoad(load, files, t)
            && (f in t.failures <==> f in s.failures || (OfRecord(files, records, f) && Fails(load, files, f)))
  {
    if records != [] {
      var front, last := records[..|records| - 1], records[|records| - 1];
      RecordFailures(load, files, s, front, f);
      assert last in records && forall r :: r in records <==> r in front || r == last;
      RecordFailure(load, files, ScanRecords(load, files, s, front), last, f);
    }
  }

  lemma {:induction false} RecordFailure(load: Loader, files: Files, s: Scan, r: Record, f: Failure)
    requires SeenLoad(load, files, s)
    ensures var t := ScanRecord(load, files, s, r);
            && SeenLoad(load, files, t)
            && (f in t.failures <==>
                f in s.failures ||
                (r.installPath == f.root && r.kind == f.kind && !Gone(files, r) && Fails(load, files, f)))
  {
  }

  /** Reported are exactly the directories that do not load, with their errors. */
  lemma {:induction false} FailuresExactly(load: Loader, files: Files, records: seq<Record>, roots: seq<Path>,
                                           f: Failure)
    ensures f in ScanRecords(load, files, ScanDirs(load, files, records, roots), records).failures <==>
            Listed(files, records, roots, records, f.root, f.kind) && Fails(load, files, f)
  {
    DirFailures(load, files, records, roots, f);
    RecordFailures(load, files, ScanDirs(load, files, records, roots), records, f);
  }

  lemma {:induction false} ExternalFailures(load: Loader, files: Files, existing: seq<Plugin>, roots: seq<Path>,
                                            f: Failure)
    ensures f in ScanRoots(load, files, existing, roots).failures <==>
            f.root in roots && f.kind == External && Fails(load, files, f)
  {
    if roots != [] {
      var front, last := roots[..|roots| - 1], roots[|roots| - 1];
      ExternalFailures(load, files, existing, front, f);
      assert f.root in roots <==> f.root in front || f.root == last;
    }
  }

  // ---------- The registry ----------

  /** The plugin directories of all external directories. */
  lemma {:induction false} ExternalDirectories(files: Files, dirs: seq<string>, path: Path)
    ensures path in ExternalRoots(files, dirs) <==>
            && path.parent in dirs && path in files
            && ("plugin.json" in files[path] || ".claude-plugin/plugin.json" in files[path])
  {
    if dirs != [] {
      ExternalDirectories(files, dirs[1..], path);
      DirectoriesBelow(files, dirs[0], path);
      assert path.parent in dirs <==> path.parent == dirs[0] || path.parent in dirs[1..];
    }
  }

  lemma {:induction false} DirectoriesBelow(files: Files, root: string, path: Path)
    ensures path in PathsIn(root, PluginDirs(files, root)) <==>
            path.parent == root && path in files && HasManifest(files[path])
  {
    var names := PluginDirs(files, root);
    if path.parent == root && path.name in names {
      var i :| 0 <= i < |names| && names[i] == path.name;
      assert PathsIn(root, names)[i] == path;
    }
    if path in PathsIn(root, names) {
      var i :| 0 <= i < |names| && PathsIn(root, names)[i] == path;
      assert names[i] in names;
    }
  }

  /** All directories there are load. */
  ghost predicate NoneFails(load: Loader, files: Files, records: seq<Record>, roots: seq<Path>, external: seq<Path>)
  {
    forall f :: Fails(load, files, f) ==>
                  && !Listed(files, records, roots, records, f.root, f.kind)
                  && !(f.root in external && f.kind == External)
  }

  /** A registry is built exactly if none of the directories fails to load; otherwise the
      error lists failures. */
  lemma {:induction false} BuiltExactly(load: Loader, c: Config, disk: Disk, enabled: map<string, bool>,
                                        records: Records)
    ensures var rs := RecordsIn(records, SortedKeys(records.Keys));
            var roots := PathsIn(c.installRoot, PluginDirs(disk.files, c.installRoot));
            var registry := Gathered(load, c, disk, enabled, records).registry;
            && (registry.Ok? <==> NoneFails(load, disk.files, rs, roots, ExternalRoots(disk.files, c.externalDirs)))
            && (registry.Err? ==> registry.error.LoadFailures? && registry.error.failures != [])
  {
    var rs := RecordsIn(records, SortedKeys(records.Keys));
    var roots := PathsIn(c.installRoot, PluginDirs(disk.files, c.installRoot));
    var external := ExternalRoots(disk.files, c.externalDirs);
    var installed := ScanRecords(load, disk.files, ScanDirs(load, disk.files, rs, roots), rs);
    var known := [EXAMPLE] + installed.plugins;
    var found := ScanRoots(load, disk.files, known, external);
    forall f ensures f in installed.failures + found.failures <==>
                     && Fails(load, disk.files, f)
                     && (Listed(disk.files, rs, roots, rs, f.root, f.kind) ||
                         (f.root in external && f.kind == External))
    {
      FailuresExactly(load, disk.files, rs, roots, f);
      ExternalFailures(load, disk.files, known, external, f);
    }
    NoneIn(installed.failures + found.failures);
  }

  lemma {:induction false} NoneIn(failures: seq<Failure>)
    ensures failures == [] <==> forall f :: f !in failures
  {
    if failures != [] { assert failures[0] in failures; }
  }
}
