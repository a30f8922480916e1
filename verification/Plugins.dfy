/** Plugins, their identifiers and their files, `plugins/src/lib.rs`. Directories are
    values in a map; reading and validating a manifest is a parameter. */
module Plugins {
  import opened Text
  import opened Ordering

  datatype Kind = Builtin | Bundled | External

  const BUILTIN := "builtin"
  const BUNDLED := "bundled"
  const EXTERNAL := "external"

  function Marketplace(kind: Kind): string {
    match kind
    case Builtin => BUILTIN
    case Bundled => BUNDLED
    case External => EXTERNAL
  }

  /** The component `name` of the directory `parent`. */
  datatype Path = Path(parent: string, name: string)

  /** A directory with everything below it, by relative file name. */
  type Directory = map<string, string>

  type Files = map<Path, Directory>

  datatype Hooks = Hooks(preToolUse: seq<string>, postToolUse: seq<string>, postToolUseFailure: seq<string>)

  datatype Lifecycle = Lifecycle(init: seq<string>, shutdown: seq<string>)

  datatype Tool = Tool(pluginId: string, name: string, command: string)

  /** A validated manifest, its commands resolved against the plugin's directory. */
  datatype Manifest = Manifest(name: string, version: string, description: string, defaultEnabled: bool,
                               hooks: Hooks, lifecycle: Lifecycle, tools: seq<Tool>)

  datatype PluginError =
    | Io(detail: string)
    | Json(detail: string)
    | InvalidManifest(detail: string)
    | NotFound(detail: string)
    | CommandFailed(detail: string)
    | LoadFailures(failures: seq<Failure>)

  /** `PluginLoadFailure`. */
  datatype Failure = Failure(root: Path, kind: Kind, error: PluginError)

  /** `load_plugin_from_directory`, of a directory with the given contents. */
  type Loader = (Path, Directory) -> Result<Manifest, PluginError>

  datatype InstallSource = LocalPath(path: Path) | GitUrl(url: string)

  /** `InstalledPluginRecord`. */
  datatype Record = Record(kind: Kind, id: string, name: string, version: string, description: string,
                           installPath: Path, source: InstallSource, installedAt: nat, updatedAt: nat)

  type Records = map<string, Record>

  /** What `installed.json` holds; a blank file counts as missing. */
  datatype RegistryFile = Missing | Unreadable(error: PluginError) | Stored(records: Records)

  datatype Config = Config(installRoot: string, bundledRoot: string, explicitRoot: bool, externalDirs: seq<string>)

  // ---------- Identifiers ----------

  function PluginId(name: string, marketplace: string): string {
    name + "@" + marketplace
  }

  function Clean(c: char): char {
    if c == '/' || c == '\\' || c == '@' || c == ':' then '-' else c
  }

  /** `sanitize_plugin_id`. */
  function Sanitize(id: string): (r: string)
    ensures |r| == |id|
    ensures forall i :: 0 <= i < |id| ==> r[i] == Clean(id[i])
  {
    seq(|id|, i requires 0 <= i < |id| => Clean(id[i]))
  }

  function InstallPath(c: Config, id: string): Path {
    Path(c.installRoot, Sanitize(id))
  }

  /** Different kinds of plugin never share an identifier, nor a directory name to install to,
      below whatever root. */
  lemma {:induction false} KindsApart(a: string, k: Kind, b: string, l: Kind)
    requires k != l
    ensures PluginId(a, Marketplace(k)) != PluginId(b, Marketplace(l))
    ensures Sanitize(PluginId(a, Marketplace(k))) != Sanitize(PluginId(b, Marketplace(l)))
    ensures forall c, d :: InstallPath(c, PluginId(a, Marketplace(k))) != InstallPath(d, PluginId(b, Marketplace(l)))
  {
    var s, t := PluginId(a, Marketplace(k)), PluginId(b, Marketplace(l));
    var u, v := Marketplace(k), Marketplace(l);
    assert s[|s| - 1] == u[|u| - 1] && t[|t| - 1] == v[|v| - 1];
    assert s[|s| - 3] == u[|u| - 3] && t[|t| - 3] == v[|v| - 3];
    assert Sanitize(s)[|s| - 3] == Clean(u[|u| - 3]) && Sanitize(t)[|t| - 3] == Clean(v[|v| - 3]);
  }

  lemma {:induction false} IdInjective(a: string, b: string, marketplace: string)
    requires PluginId(a, marketplace) == PluginId(b, marketplace)
    ensures a == b
  {
    var s := PluginId(a, marketplace);
    assert |a| == |b| && s[..|a|] == a && s[..|b|] == b;
  }

  /** Two plugins of a kind share a place to install to exactly when their names differ at
      most in the four replaced characters. */
  lemma {:induction false} PathsClash(c: Config, a: string, b: string, k: Kind)
    ensures InstallPath(c, PluginId(a, Marketplace(k))) == InstallPath(c, PluginId(b, Marketplace(k)))
            <==> Sanitize(a) == Sanitize(b)
  {
    var m := "@" + Marketplace(k);
    assert PluginId(a, Marketplace(k)) == a + m && PluginId(b, Marketplace(k)) == b + m;
    SanitizeConcat(a, m);
    SanitizeConcat(b, m);
    SameTail(Sanitize(a), Sanitize(b), Sanitize(m));
  }

  lemma {:induction false} SanitizeConcat(a: string, b: string)
    ensures Sanitize(a + b) == Sanitize(a) + Sanitize(b)
  {
  }

  lemma {:induction false} SameTail(a: string, b: string, t: string)
    ensures a + t == b + t <==> a == b
  {
    if a + t == b + t {
      assert (a + t)[..|a|] == a && (b + t)[..|b|] == b;
    }
  }

  // ---------- Directories ----------

  const MANIFEST_FILE := "plugin.json"
  const PACKAGED_MANIFEST := ".claude-plugin/plugin.json"

  /** `plugin_manifest_path` finds a manifest. */
  predicate HasManifest(d: Directory) {
    MANIFEST_FILE in d || PACKAGED_MANIFEST in d
  }

  function PluginNames(files: Files, root: string): set<string> {
    set p | p in files && p.parent == root && HasManifest(files[p]) :: p.name
  }

  /** `discover_plugin_dirs`: the plugin directories below `root`, sorted. */
  ghost function PluginDirs(files: Files, root: string): (r: seq<string>)
    ensures Increasing(r)
    ensures forall n :: n in r <==> Path(root, n) in files && HasManifest(files[Path(root, n)])
  {
    SortedKeys(PluginNames(files, root))
  }

  /** Removing the target if it is there and copying the source into it: the target holds
      what the source held, but a directory copied onto itself is emptied. */
  function Copied(files: Files, source: Path, target: Path): Files
    requires source in files
  {
    files[target := if source == target then map[] else files[source]]
  }

  function LoadAt(load: Loader, files: Files, path: Path): Result<Manifest, PluginError> {
    if path in files then load(path, files[path]) else Err(NotFound(path.name))
  }

  // ---------- What is on disk ----------

  datatype Disk = Disk(files: Files, registry: RegistryFile)

  /** `load_registry`. */
  function LoadRegistry(file: RegistryFile): Result<Records, PluginError> {
    match file
    case Missing => Ok(map[])
    case Unreadable(error) => Err(error)
    case Stored(records) => Ok(records)
  }

  /** Every record is kept under its own identifier and installed in a directory named after
      it, below whatever the install root was then. */
  predicate WellKeyed(records: Records) {
    forall id :: id in records ==>
                   && records[id].id == id && id == PluginId(records[id].name, Marketplace(records[id].kind))
                   && records[id].installPath.name == Sanitize(id)
  }
}
