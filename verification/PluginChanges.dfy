/** What enabling, installing and uninstalling leave, field by field, when they go well and
    when they do not; and how a sync ends that cannot begin. */
module PluginChanges {
  import opened Text
  import opened Plugins
  import opened PluginSync
  import opened PluginDiscovery
  import opened PluginRegistry
  import opened PluginManager

  /** Only the entry of `id` may differ. */
  ghost predicate OthersSame<V>(before: map<string, V>, after: map<string, V>, id: string) {
    forall k :: k != id ==> (k in after <==> k in before) && (k in before ==> after[k] == before[k])
  }

  ghost predicate Lists(registry: seq<Registered>, id: string) {
    exists r :: r in registry && r.plugin.id == id
  }

  // ---------- Enabling ----------

  /** A listed plugin is set to what was asked for, in the settings file and in the
      configuration, and nothing else is; one that is not listed, or cannot be looked up,
      leaves both as they are. The disk is what the lookup left. */
  lemma {:induction false} SwitchedExactly(home: Home, report: Report, id: string, on: bool)
    ensures var out := Switched(home, report, id, on);
            && out.home.disk == report.disk
            && (report.registry.Ok? && Lists(report.registry.value, id) ==>
                && out.error == None
                && id in out.home.settings && out.home.settings[id] == on
                && id in out.home.enabled && out.home.enabled[id] == on
                && OthersSame(home.settings, out.home.settings, id) && OthersSame(home.enabled, out.home.enabled, id))
            && (report.registry.Ok? && !Lists(report.registry.value, id) ==> out.error == Some(NotFound(id)))
            && (report.registry.Err? ==> out.error == Some(report.registry.error))
            && (out.error != None ==> out.home.settings == home.settings && out.home.enabled == home.enabled)
  {
  }

  /** So the next registry lists the plugin as it was switched, and the others as before. */
  lemma {:induction false} SwitchedIsSeen(home: Home, report: Report, id: string, on: bool, plugins: seq<Plugin>,
                                          i: nat)
    requires Switched(home, report, id, on).error == None && i < |plugins|
    ensures var after := Register(Switched(home, report, id, on).home.enabled, plugins)[i];
            && after.plugin == plugins[i]
            && after.enabled == if plugins[i].id == id then on else Register(home.enabled, plugins)[i].enabled
  {
    SwitchedExactly(home, report, id, on);
    EnabledByDefault(Switched(home, report, id, on).home.enabled, plugins, i);
    EnabledByDefault(home.enabled, plugins, i);
  }

  // ---------- Installing ----------

  lemma {:induction false} ExternalAndBundled(name: string)
    ensures PluginId(name, EXTERNAL) == name + "@external" && PluginId(name, BUNDLED) == name + "@bundled"
  {
    assert "@external" == "@" + "external" && "@bundled" == "@" + "bundled";
  }

  lemma {:induction false} MovedFiles(load: Loader, c: Config, home: Home, source: InstallSource, staged: Path,
                                      now: nat)
    requires staged in home.disk.files && load(staged, home.disk.files[staged]).Ok?
    ensures FilesMoved(c, home.disk.files, Install(load, c, home, source, staged, now).home.disk.files, source, staged,
                       load(staged, home.disk.files[staged]).value.name)
  {
    ExternalAndBundled(load(staged, home.disk.files[staged]).value.name);
  }

  /** A source that does not load changes nothing; a registry that cannot be read leaves what
      was copied, but neither a record nor an enabled plugin. */
  lemma {:induction false} InstallFails(load: Loader, c: Config, home: Home, source: InstallSource, staged: Path,
                                        now: nat)
    requires Install(load, c, home, source, staged, now).error != None
    ensures var out := Install(load, c, home, source, staged, now);
            && out.home.disk.registry == home.disk.registry
            && out.home.settings == home.settings && out.home.enabled == home.enabled
            && (staged !in home.disk.files ==> out.home == home && out.error == Some(NotFound(staged.name)))
            && (staged in home.disk.files && load(staged, home.disk.files[staged]).Err? ==>
                out.home == home && out.error == Some(load(staged, home.disk.files[staged]).error))
            && (staged in home.disk.files && load(staged, home.disk.files[staged]).Ok? ==>
                && home.disk.registry.Unreadable? && out.error == Some(home.disk.registry.error)
                && FilesMoved(c, home.disk.files, out.home.disk.files, source, staged,
                              load(staged, home.disk.files[staged]).value.name))
  {
    if staged in home.disk.files && load(staged, home.disk.files[staged]).Ok? {
      MovedFiles(load, c, home, source, staged, now);
    }
  }

  /** The plugin's directory holds what was staged, a clone is gone, and nothing else changed;
      if the plugin was staged where it is installed to, that directory is empty or gone. */
  ghost predicate FilesMoved(c: Config, before: Files, after: Files, source: InstallSource, staged: Path,
                             name: string)
  {
    var target := InstallPath(c, name + "@external");
    && (forall path :: path != target && path != staged ==>
          (path in after <==> path in before) && (path in before ==> after[path] == before[path]))
    && (staged in after <==> source.LocalPath?)
    && (staged != target ==>
        && staged in before && target in after && after[target] == before[staged]
        && (source.LocalPath? ==> after[staged] == before[staged]))
    && (staged == target && source.LocalPath? ==> after[staged] == map[])
  }

  /** An installation that succeeds stores a record of everything the manifest says, with the
      time, and enables the plugin; other records and settings stay. */
  lemma {:induction false} InstallRecords(load: Loader, c: Config, home: Home, source: InstallSource, staged: Path,
                                          now: nat)
    requires staged in home.disk.files && load(staged, home.disk.files[staged]).Ok?
    requires !home.disk.registry.Unreadable?
    ensures var m := load(staged, home.disk.files[staged]).value;
            var out := Install(load, c, home, source, staged, now);
            var id := m.name + "@external";
            && out.error == None && out.home.disk.registry.Stored?
            && FilesMoved(c, home.disk.files, out.home.disk.files, source, staged, m.name)
            && var before, records := LoadRegistry(home.disk.registry).value, out.home.disk.registry.records;
            && id in records && OthersSame(before, records, id)
            && (home.disk.registry.Missing? ==> records.Keys == {id})
            && records[id].kind == External && records[id].id == id && records[id].name == m.name
            && records[id].version == m.version && records[id].description == m.description
            && records[id].installPath == InstallPath(c, id) && records[id].source == source
            && records[id].installedAt == now && records[id].updatedAt == now
            && id in out.home.settings && out.home.settings[id] && id in out.home.enabled && out.home.enabled[id]
            && OthersSame(home.settings, out.home.settings, id) && OthersSame(home.enabled, out.home.enabled, id)
  {
    MovedFiles(load, c, home, source, staged, now);
    ExternalAndBundled(load(staged, home.disk.files[staged]).value.name);
  }

  // ---------- Uninstalling ----------

  /** A bundled plugin and an unknown one are refused, and nothing changes; an external one
      loses its directory, its record and both settings, and nothing else does. */
  lemma {:induction false} UninstallExactly(home: Home, id: string)
    ensures var out := Uninstall(home, id);
            && (home.disk.registry.Unreadable? ==> out == Change(home, Some(home.disk.registry.error)))
            && (!home.disk.registry.Unreadable? ==>
                var records := LoadRegistry(home.disk.registry).value;
                && (id !in records ==> out == Change(home, Some(NotFound(id))))
                && (id in records && records[id].kind == Bundled ==> out == Change(home, Some(CommandFailed(id))))
                && (id in records && records[id].kind != Bundled ==>
                    && out.error == None && out.home.disk.registry.Stored?
                    && id !in out.home.disk.registry.records && OthersSame(records, out.home.disk.registry.records, id)
                    && id !in out.home.settings && OthersSame(home.settings, out.home.settings, id)
                    && id !in out.home.enabled && OthersSame(home.enabled, out.home.enabled, id)
                    && records[id].installPath !in out.home.disk.files
                    && forall path :: path != records[id].installPath ==>
                         && (path in out.home.disk.files <==> path in home.disk.files)
                         && (path in home.disk.files ==> out.home.disk.files[path] == home.disk.files[path])))
  {
  }

  // ---------- Syncs ----------

  /** A default directory that may not be read is as good as empty; one that was configured,
      or any other failure, ends the sync before it begins, and so does an unreadable
      registry. */
  lemma {:induction false} SyncCannotBegin(load: Loader, c: Config, disk: Disk, error: PluginError, names: seq<string>,
                                           clock: nat -> nat)
    ensures !c.explicitRoot ==>
              Sync(load, c, disk, PermissionDenied(error), clock) == Sync(load, c, disk, Found([]), clock)
    ensures c.explicitRoot ==> Sync(load, c, disk, PermissionDenied(error), clock) == Synced(disk, Some(error))
    ensures Sync(load, c, disk, Failed(error), clock) == Synced(disk, Some(error))
    ensures disk.registry == Unreadable(error) ==>
              Sync(load, c, disk, Found(names), clock) == Synced(disk, Some(error))
  {
  }

  /** It ends with the error of the first bundled directory that does not load; what was copied
      before it stays, but the registry file is as it was. */
  lemma {:induction false} SyncBreaksOff(load: Loader, c: Config, p: Progress, names: seq<string>, clock: nat -> nat,
                                         i: nat)
    requires i < |names| && LoadAt(load, p.files, Path(c.bundledRoot, names[i])).Err?
    ensures SyncFrom(load, c, p, names, clock, i) ==
            Outcome(p, Some(LoadAt(load, p.files, Path(c.bundledRoot, names[i])).error))
  {
  }

  /** The record says what the manifest says, and the recorded copy loads. */
  ghost predicate Current(load: Loader, c: Config, p: Progress, m: Manifest) {
    var id := m.name + "@bundled";
    && id in p.records
    && var r := p.records[id];
    && r.kind == Bundled && r.name == m.name && r.version == m.version && r.description == m.description
    && r.installPath == InstallPath(c, id)
    && r.installPath in p.files && load(r.installPath, p.files[r.installPath]).Ok?
  }

  /** A plugin that is current stays as it is; any other is copied and recorded with everything
      its manifest says: the time of its first installation is kept, that of this one is new. */
  lemma {:induction false} SyncRecords(load: Loader, c: Config, p: Progress, m: Manifest, source: Path, now: nat)
    requires source in p.files
    ensures var q := SyncOne(load, c, p, m, source, now);
            var id := m.name + "@bundled";
            && q.active == p.active + {id}
            && (Current(load, c, p, m) ==> q.files == p.files && q.records == p.records && q.changed == p.changed)
            && (!Current(load, c, p, m) ==>
                && q.changed && OthersSame(p.records, q.records, id) && id in q.records
                && q.records[id].kind == Bundled && q.records[id].id == id && q.records[id].name == m.name
                && q.records[id].version == m.version && q.records[id].description == m.description
                && q.records[id].installPath == InstallPath(c, id) && q.records[id].source == LocalPath(source)
                && q.records[id].updatedAt == now
                && q.records[id].installedAt == if id in p.records then p.records[id].installedAt else now)
  {
    ExternalAndBundled(m.name);
  }

  /** The report of a registry ends with the error of its sync, or of the registry file. */
  lemma {:induction false} ReportFails(load: Loader, c: Config, disk: Disk, enabled: map<string, bool>,
                                       listing: Listing, clock: nat -> nat)
    ensures var synced := Sync(load, c, disk, listing, clock);
            var report := Registry(load, c, disk, enabled, listing, clock);
            && (synced.result.Some? ==> report == Report(synced.disk, Err(synced.result.value)))
            && (synced.result.None? && synced.disk.registry.Unreadable? ==>
                report == Report(synced.disk, Err(synced.disk.registry.error)))
  {
  }
}
