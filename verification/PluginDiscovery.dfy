/** Discovery of installed and external plugins, without repeating an identifier. */
module PluginDiscovery {
  import opened Text
  import opened Ordering
  import opened Plugins

  /** `PluginDefinition`. */
  datatype Plugin = Plugin(id: string, kind: Kind, manifest: Manifest, root: Option<Path>)

  const EXAMPLE_NAME := "example-builtin"
  const EXAMPLE_ID := PluginId(EXAMPLE_NAME, BUILTIN)
  const EXAMPLE_TEXT := "Example built-in plugin scaffold for the Rust plugin system"

  /** `builtin_plugins` holds this one. */
  const EXAMPLE := Plugin(EXAMPLE_ID, Builtin,
                          Manifest(EXAMPLE_NAME, "0.1.0", EXAMPLE_TEXT, false,
                                   Hooks([], [], []), Lifecycle([], []), []), None)

  function IdOf(p: Plugin): string {
    p.id
  }

  /** `load_plugin_definition`, with the marketplace of the kind. */
  function LoadDefinition(load: Loader, files: Files, root: Path, kind: Kind): Result<Plugin, PluginError> {
    match LoadAt(load, files, root)
    case Err(error) => Err(error)
    case Ok(m) => Ok(Plugin(PluginId(m.name, Marketplace(kind)), kind, m, Some(root)))
  }

  // ---------- Installed plugins ----------

  datatype Scan = Scan(plugins: seq<Plugin>, failures: seq<Failure>, seenIds: set<string>,
                       seenPaths: set<Path>, stale: set<string>)

  const NOTHING := Scan([], [], {}, {}, {})

  function ScanOne(load: Loader, files: Files, s: Scan, root: Path, kind: Kind): Scan {
    match LoadDefinition(load, files, root, kind)
    case Err(error) => s.(failures := s.failures + [Failure(root, kind, error)])
    case Ok(plugin) =>
      if plugin.id in s.seenIds then s
      else s.(plugins := s.plugins + [plugin], seenIds := s.seenIds + {plugin.id}, seenPaths := s.seenPaths + {root})
  }

  /** The kind of the first record, in key order, that is installed at `path`. */
  function KindAt(records: seq<Record>, path: Path): Kind {
    if records == [] then External
    else if records[0].installPath == path then records[0].kind
    else KindAt(records[1..], path)
  }

  function ScanDirs(load: Loader, files: Files, records: seq<Record>, roots: seq<Path>): Scan
    decreases |roots|
  {
    if roots == [] then NOTHING
    else
      var last := roots[|roots| - 1];
      ScanOne(load, files, ScanDirs(load, files, records, roots[..|roots| - 1]), last, KindAt(records, last))
  }

  function ScanRecord(load: Loader, files: Files, s: Scan, r: Record): Scan {
    if r.installPath in s.seenPaths then s
    else if r.installPath !in files || !HasManifest(files[r.installPath]) then s.(stale := s.stale + {r.id})
    else ScanOne(load, files, s, r.installPath, r.kind)
  }

  function ScanRecords(load: Loader, files: Files, s: Scan, records: seq<Record>): Scan
    decreases |records|
  {
    if records == [] then s
    else ScanRecord(load, files, ScanRecords(load, files, s, records[..|records| - 1]), records[|records| - 1])
  }

  // ---------- External directories ----------

  datatype Discovery = Discovery(plugins: seq<Plugin>, failures: seq<Failure>)

  function ScanRoot(load: Loader, files: Files, existing: seq<Plugin>, d: Discovery, root: Path): Discovery {
    match LoadDefinition(load, files, root, External)
    case Err(error) => d.(failures := d.failures + [Failure(root, External, error)])
    case Ok(plugin) =>
      if forall p :: p in existing + d.plugins ==> p.id != plugin.id then d.(plugins := d.plugins + [plugin]) else d
  }

  function ScanRoots(load: Loader, files: Files, existing: seq<Plugin>, roots: seq<Path>): Discovery
    decreases |roots|
  {
    if roots == [] then Discovery([], [])
    else ScanRoot(load, files, existing, ScanRoots(load, files, existing, roots[..|roots| - 1]), roots[|roots| - 1])
  }

  // ---------- Identifiers are distinct ----------

  ghost predicate WellScanned(files: Files, s: Scan) {
    && DistinctKeys(s.plugins, IdOf)
    && (forall id :: id in s.seenIds <==> exists p :: p in s.plugins && p.id == id)
    && (forall p :: p in s.plugins ==> p.id == PluginId(p.manifest.name, Marketplace(p.kind)))
    && (forall path :: path in s.seenPaths ==> path in files)
  }

  lemma {:induction false} ScanOneKeeps(load: Loader, files: Files, s: Scan, root: Path, kind: Kind)
    requires WellScanned(files, s)
    ensures WellScanned(files, ScanOne(load, files, s, root, kind))
  {
    var t := ScanOne(load, files, s, root, kind);
    if t.plugins != s.plugins {
      var added := t.plugins[|s.plugins|];
      assert t.plugins == s.plugins + [added];
      forall id ensures id in t.seenIds <==> exists p :: p in t.plugins && p.id == id {
        if id == added.id { assert added in t.plugins; }
        if p :| p in t.plugins && p.id == id { assert p == added || p in s.plugins; }
      }
    }
  }

  lemma {:induction false} ScanDirsKeeps(load: Loader, files: Files, records: seq<Record>, roots: seq<Path>)
    ensures WellScanned(files, ScanDirs(load, files, records, roots))
  {
    if roots != [] {
      var last := roots[|roots| - 1];
      ScanDirsKeeps(load, files, records, roots[..|roots| - 1]);
      ScanOneKeeps(load, files, ScanDirs(load, files, records, roots[..|roots| - 1]), last, KindAt(records, last));
    }
  }

  lemma {:induction false} ScanRecordsKeeps(load: Loader, files: Files, s: Scan, records: seq<Record>)
    requires WellScanned(files, s)
    ensures WellScanned(files, ScanRecords(load, files, s, records))
  {
    if records != [] {
      var r := records[|records| - 1];
      var t := ScanRecords(load, files, s, records[..|records| - 1]);
      ScanRecordsKeeps(load, files, s, records[..|records| - 1]);
      ScanOneKeeps(load, files, t, r.installPath, r.kind);
    }
  }

  lemma {:induction false} ScanRootsDistinct(load: Loader, files: Files, existing: seq<Plugin>, roots: seq<Path>)
    ensures var d := ScanRoots(load, files, existing, roots);
            && DistinctKeys(d.plugins, IdOf)
            && forall p, q :: p in existing && q in d.plugins ==> p.id != q.id
  {
    if roots != [] {
      ScanRootsDistinct(load, files, existing, roots[..|roots| - 1]);
    }
  }

  /** Everything `plugin_registry_report` puts into one registry, in discovery order. */
  function AllPlugins(load: Loader, files: Files, records: seq<Record>, roots: seq<Path>, external: seq<Path>)
    : seq<Plugin>
  {
    var known := [EXAMPLE] + ScanRecords(load, files, ScanDirs(load, files, records, roots), records).plugins;
    known + ScanRoots(load, files, known, external).plugins
  }

  /** The registry's identifiers are distinct exactly when no installed plugin takes that of
      the built-in one, and so always when no record claims to be a built-in plugin. */
  lemma {:induction false} IdsDistinct(load: Loader, files: Files, records: seq<Record>, roots: seq<Path>,
                                       external: seq<Path>)
    ensures var installed := ScanRecords(load, files, ScanDirs(load, files, records, roots), records);
            DistinctKeys(AllPlugins(load, files, records, roots, external), IdOf) <==> EXAMPLE_ID !in installed.seenIds
    ensures (forall r :: r in records ==> r.kind != Builtin) ==>
              DistinctKeys(AllPlugins(load, files, records, roots, external), IdOf)
  {
    var dirs := ScanDirs(load, files, records, roots);
    var installed := ScanRecords(load, files, dirs, records);
    ScanDirsKeeps(load, files, records, roots);
    ScanRecordsKeeps(load, files, dirs, records);
    var known := [EXAMPLE] + installed.plugins;
    ScanRootsDistinct(load, files, known, external);
    AllDistinct(files, installed, ScanRoots(load, files, known, external).plugins);
    if forall r :: r in records ==> r.kind != Builtin {
      KindsScanned(load, files, records, roots);
      NotExample(files, installed);
    }
  }

  lemma {:induction false} AllDistinct(files: Files, installed: Scan, found: seq<Plugin>)
    requires WellScanned(files, installed) && DistinctKeys(found, IdOf)
    requires forall p, q :: p in [EXAMPLE] + installed.plugins && q in found ==> p.id != q.id
    ensures DistinctKeys([EXAMPLE] + installed.plugins + found, IdOf) <==> EXAMPLE_ID !in installed.seenIds
  {
    if EXAMPLE_ID in installed.seenIds {
      var p :| p in installed.plugins && p.id == EXAMPLE_ID;
      ListedTwice([EXAMPLE], installed.plugins, found, p);
    } else {
      Appended([EXAMPLE], installed.plugins);
      Appended([EXAMPLE] + installed.plugins, found);
    }
  }

  lemma {:induction false} ListedTwice(first: seq<Plugin>, more: seq<Plugin>, rest: seq<Plugin>, p: Plugin)
    requires first != [] && p in more && p.id == first[0].id
    ensures !DistinctKeys(first + more + rest, IdOf)
  {
    var i :| 0 <= i < |more| && more[i] == p;
    var all := first + more + rest;
    assert all[0] == first[0] && all[|first| + i] == p;
    assert IdOf(all[0]) == IdOf(all[|first| + i]);
  }

  lemma {:induction false} NotExample(files: Files, installed: Scan)
    requires WellScanned(files, installed) && NoBuiltin(installed)
    ensures EXAMPLE_ID !in installed.seenIds
  {
    forall p | p in installed.plugins ensures p.id != EXAMPLE_ID {
      KindsApart(p.manifest.name, p.kind, EXAMPLE_NAME, Builtin);
    }
  }

  lemma {:induction false} Appended(a: seq<Plugin>, b: seq<Plugin>)
    requires DistinctKeys(a, IdOf) && DistinctKeys(b, IdOf)
    requires forall p, q :: p in a && q in b ==> p.id != q.id
    ensures DistinctKeys(a + b, IdOf)
  {
    forall i, j | 0 <= i < j < |a + b| ensures IdOf((a + b)[i]) != IdOf((a + b)[j]) {
      if i < |a| <= j {
        assert a[i] in a && b[j - |a|] in b;
      }
    }
  }

  ghost predicate NoBuiltin(s: Scan) {
    forall p :: p in s.plugins ==> p.kind != Builtin
  }

  lemma {:induction false} KindAtIsRecorded(records: seq<Record>, path: Path)
    requires forall r :: r in records ==> r.kind != Builtin
    ensures KindAt(records, path) != Builtin
  {
    if records != [] {
      assert records[0] in records;
      KindAtIsRecorded(records[1..], path);
    }
  }

  lemma {:induction false} DirKinds(load: Loader, files: Files, records: seq<Record>, roots: seq<Path>)
    requires forall r :: r in records ==> r.kind != Builtin
    ensures NoBuiltin(ScanDirs(load, files, records, roots))
  {
    if roots != [] {
      DirKinds(load, files, records, roots[..|roots| - 1]);
      KindAtIsRecorded(records, roots[|roots| - 1]);
    }
  }

  lemma {:induction false} RecordKinds(load: Loader, files: Files, s: Scan, records: seq<Record>)
    requires NoBuiltin(s) && forall r :: r in records ==> r.kind != Builtin
    ensures NoBuiltin(ScanRecords(load, files, s, records))
  {
    if records != [] {
      RecordKinds(load, files, s, records[..|records| - 1]);
      assert records[|records| - 1] in records;
    }
  }

  lemma {:induction false} KindsScanned(load: Loader, files: Files, records: seq<Record>, roots: seq<Path>)
    requires forall r :: r in records ==> r.kind != Builtin
    ensures NoBuiltin(ScanRecords(load, files, ScanDirs(load, files, records, roots), records))
  {
    DirKinds(load, files, records, roots);
    RecordKinds(load, files, ScanDirs(load, files, records, roots), records);
  }

  // ---------- What is found ----------

  predicate Gone(files: Files, r: Record) {
    r.installPath !in files || !HasManifest(files[r.installPath])
  }

  /** Every scanned directory has a manifest, as `discover_plugin_dirs` guarantees. */
  predicate AllPresent(files: Files, roots: seq<Path>) {
    forall root :: root in roots ==> root in files && HasManifest(files[root])
  }

  /** Records installed at the same place are of the same kind. */
  predicate OneKindEach(records: seq<Record>) {
    forall r, q :: r in records && q in records && r.installPath == q.installPath ==> r.kind == q.kind
  }

  /** The directory `path` loads, under the kind its records give it, as the plugin `id`. */
  predicate LoadsAs(load: Loader, files: Files, records: seq<Record>, path: Path, id: string) {
    var loaded := LoadAt(load, files, path);
    loaded.Ok? && id == PluginId(loaded.value.name, Marketplace(KindAt(records, path)))
  }

  /** Every path that counts as seen has loaded as a plugin that was seen. */
  ghost predicate PathsLoaded(load: Loader, files: Files, records: seq<Record>, s: Scan) {
    forall path :: path in s.seenPaths ==>
                     LoadAt(load, files, path).Ok?
                     && forall id :: LoadsAs(load, files, records, path, id) ==> id in s.seenIds
  }

  lemma {:induction false} ScanOneFinds(load: Loader, files: Files, records: seq<Record>, s: Scan, root: Path,
                                        id: string)
    requires PathsLoaded(load, files, records, s)
    ensures var t := ScanOne(load, files, s, root, KindAt(records, root));
            && PathsLoaded(load, files, records, t)
            && (id in t.seenIds <==> id in s.seenIds || LoadsAs(load, files, records, root, id))
  {
  }

  lemma {:induction false} DirsFind(load: Loader, files: Files, records: seq<Record>, roots: seq<Path>, id: string)
    ensures var s := ScanDirs(load, files, records, roots);
            && PathsLoaded(load, files, records, s)
            && (id in s.seenIds <==> exists path :: path in roots && LoadsAs(load, files, records, path, id))
  {
    if roots != [] {
      var front, last := roots[..|roots| - 1], roots[|roots| - 1];
      DirsFind(load, files, records, front, id);
      ScanOneFinds(load, files, records, ScanDirs(load, files, records, front), last, id);
      assert forall path :: path in roots <==> path in front || path == last;
    }
  }

  lemma {:induction false} KindAtOf(records: seq<Record>, r: Record)
    requires OneKindEach(records) && r in records
    ensures KindAt(records, r.installPath) == r.kind
  {
    assert records[0] in records;
    if records[0].installPath != r.installPath {
      assert r in records[1..] && forall q :: q in records[1..] ==> q in records;
      KindAtOf(records[1..], r);
    }
  }

  lemma {:induction false} RecordsFind(load: Loader, files: Files, all: seq<Record>, s: Scan, records: seq<Record>,
                                       id: string)
    requires OneKindEach(all) && PathsLoaded(load, files, all, s) && forall r :: r in records ==> r in all
    ensures var t := ScanRecords(load, files, s, records);
            && PathsLoaded(load, files, all, t)
            && (id in t.seenIds <==>
                || id in s.seenIds
                || exists r :: r in records && !Gone(files, r) && LoadsAs(load, files, all, r.installPath, id))
  {
    if records != [] {
      var front, last := records[..|records| - 1], records[|records| - 1];
      assert forall r :: r in records <==> r in front || r == last;
      RecordsFind(load, files, all, s, front, id);
      KindAtOf(all, last);
      ScanOneFinds(load, files, all, ScanRecords(load, files, s, front), last.installPath, id);
    }
  }

  /** Discovery is sound and complete: it finds exactly the identifiers as which some directory
      of the install root, or of a record that is not gone, loads. */
  lemma {:induction false} FoundExactly(load: Loader, files: Files, records: seq<Record>, roots: seq<Path>, id: string)
    requires OneKindEach(records)
    ensures id in ScanRecords(load, files, ScanDirs(load, files, records, roots), records).seenIds <==>
            || (exists path :: path in roots && LoadsAs(load, files, records, path, id))
            || (exists r :: r in records && !Gone(files, r) && LoadsAs(load, files, records, r.installPath, id))
  {
    DirsFind(load, files, records, roots, id);
    RecordsFind(load, files, records, ScanDirs(load, files, records, roots), records, id);
  }

  /** A record that passes a directory off as the built-in plugin. */
  predicate Impostor(load: Loader, files: Files, r: Record) {
    var loaded := LoadAt(load, files, r.installPath);
    r.kind == Builtin && !Gone(files, r) && loaded.Ok? && loaded.value.name == EXAMPLE_NAME
  }

  lemma {:induction false} KindFromRecord(records: seq<Record>, path: Path) returns (r: Record)
    requires KindAt(records, path) != External
    ensures r in records && r.installPath == path && r.kind == KindAt(records, path)
  {
    if records[0].installPath == path {
      r := records[0];
    } else {
      r := KindFromRecord(records[1..], path);
    }
  }

  lemma {:induction false} LoadsAsExample(load: Loader, files: Files, records: seq<Record>, path: Path)
    ensures LoadsAs(load, files, records, path, EXAMPLE_ID) <==>
            var loaded := LoadAt(load, files, path);
            loaded.Ok? && loaded.value.name == EXAMPLE_NAME && KindAt(records, path) == Builtin
  {
    var loaded := LoadAt(load, files, path);
    if LoadsAs(load, files, records, path, EXAMPLE_ID) {
      if KindAt(records, path) != Builtin {
        KindsApart(loaded.value.name, KindAt(records, path), EXAMPLE_NAME, Builtin);
      } else {
        IdInjective(loaded.value.name, EXAMPLE_NAME, BUILTIN);
      }
    }
  }

  /** The identifiers of everything discovered are distinct exactly when no record passes a
      directory off as the built-in plugin: something to be seen on the disk. */
  lemma {:induction false} DistinctOnDisk(load: Loader, files: Files, records: seq<Record>, roots: seq<Path>,
                                          external: seq<Path>)
    requires OneKindEach(records) && AllPresent(files, roots)
    ensures DistinctKeys(AllPlugins(load, files, records, roots, external), IdOf) <==>
            forall r :: r in records ==> !Impostor(load, files, r)
  {
    IdsDistinct(load, files, records, roots, external);
    FoundExactly(load, files, records, roots, EXAMPLE_ID);
    if path :| path in roots && LoadsAs(load, files, records, path, EXAMPLE_ID) {
      LoadsAsExample(load, files, records, path);
      var r := KindFromRecord(records, path);
      assert Impostor(load, files, r);
    }
    forall r | r in records
      ensures Impostor(load, files, r) <==>
              !Gone(files, r) && LoadsAs(load, files, records, r.installPath, EXAMPLE_ID)
    {
      KindAtOf(records, r);
      LoadsAsExample(load, files, records, r.installPath);
    }
  }

  /** A disk with such a record: the registry then holds two plugins of one identifier. */
  lemma {:induction false} ImpostorIsListed(load: Loader, path: Path, d: Directory, r: Record, m: Manifest)
    requires HasManifest(d) && load(path, d) == Ok(m) && m.name == EXAMPLE_NAME
    requires r.kind == Builtin && r.installPath == path
    ensures !DistinctKeys(AllPlugins(load, map[path := d], [r], [path], []), IdOf)
  {
    DistinctOnDisk(load, map[path := d], [r], [path], []);
    assert r in [r] && Impostor(load, map[path := d], r);
  }

  // ---------- Stale records ----------

  ghost predicate SeenPresent(files: Files, s: Scan) {
    forall path :: path in s.seenPaths ==> path in files && HasManifest(files[path])
  }

  lemma {:induction false} DirsSeen(load: Loader, files: Files, records: seq<Record>, roots: seq<Path>)
    requires AllPresent(files, roots)
    ensures SeenPresent(files, ScanDirs(load, files, records, roots))
    ensures ScanDirs(load, files, records, roots).stale == {}
  {
    if roots != [] {
      assert roots[|roots| - 1] in roots;
      assert AllPresent(files, roots[..|roots| - 1]);
      DirsSeen(load, files, records, roots[..|roots| - 1]);
    }
  }

  /** A record is dropped as stale exactly when its directory, or the manifest in it, is gone. */
  lemma {:induction false} StaleExactly(load: Loader, files: Files, s: Scan, records: seq<Record>)
    requires SeenPresent(files, s)
    ensures var t := ScanRecords(load, files, s, records);
            && SeenPresent(files, t)
            && forall id :: id in t.stale <==> id in s.stale || exists r :: r in records && r.id == id && Gone(files, r)
  {
    if records != [] {
      var front, last := records[..|records| - 1], records[|records| - 1];
      StaleExactly(load, files, s, front);
      var t := ScanRecords(load, files, s, front);
      var u := ScanRecords(load, files, s, records);
      assert last in records && forall r :: r in records <==> r in front || r == last;
      assert u.stale == if Gone(files, last) then t.stale + {last.id} else t.stale;
      forall id ensures id in u.stale <==> id in s.stale || exists r :: r in records && r.id == id && Gone(files, r) {
        if r :| r in records && r.id == id && Gone(files, r) && r != last {
          assert r in front;
        }
      }
    }
  }
}
