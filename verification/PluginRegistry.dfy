/** `PluginRegistry`: the tools, the hooks and the lifecycle of the enabled plugins. Whether
    a plugin validates, and how its commands end, are parameters. */
module PluginRegistry {
  import opened Text
  import opened Ordering
  import opened Plugins
  import opened PluginDiscovery

  datatype Registered = Registered(plugin: Plugin, enabled: bool)

  /** The plugins in the order of `PluginRegistry::new`. */
  function NewRegistry(plugins: seq<Registered>): seq<Registered> {
    SortBy(plugins, RegisteredId)
  }

  function RegisteredId(r: Registered): string {
    r.plugin.id
  }

  /** `is_enabled`: as configured, else by the manifest, but external plugins are off. */
  function IsEnabled(enabled: map<string, bool>, p: Plugin): bool {
    if p.id in enabled then enabled[p.id] else !p.kind.External? && p.manifest.defaultEnabled
  }

  /** The plugins found, each with whether it is enabled. */
  function Register(enabled: map<string, bool>, plugins: seq<Plugin>): (r: seq<Registered>)
    ensures |r| == |plugins|
    ensures forall i :: 0 <= i < |r| ==> r[i] == Registered(plugins[i], IsEnabled(enabled, plugins[i]))
  {
    if plugins == [] then []
    else [Registered(plugins[0], IsEnabled(enabled, plugins[0]))] + Register(enabled, plugins[1..])
  }

  /** `iter().filter(is_enabled)`. */
  function Enabled(registry: seq<Registered>): seq<Plugin> {
    if registry == [] then []
    else (if registry[0].enabled then [registry[0].plugin] else []) + Enabled(registry[1..])
  }

  /** The error of a plugin that does not validate, or of a command that fails. */
  type Check = Plugin -> Option<PluginError>

  // ---------- Tools ----------

  function NameOf(t: Tool): string {
    t.name
  }

  /** The tools of the first `n` plugins. */
  function ToolsOf(plugins: seq<Plugin>, n: nat): seq<Tool>
    requires n <= |plugins|
  {
    if n == 0 then [] else ToolsOf(plugins, n - 1) + plugins[n - 1].manifest.tools
  }

  function AllTools(plugins: seq<Plugin>): seq<Tool> {
    ToolsOf(plugins, |plugins|)
  }

  /** The tools of all plugins are those of each, in the order of the plugins. */
  lemma {:induction false} ToolsTogether(a: seq<Plugin>, p: Plugin)
    ensures AllTools([]) == [] && AllTools(a + [p]) == AllTools(a) + p.manifest.tools
  {
    ToolsAlike(a, a + [p], |a|);
  }

  lemma {:induction false} ToolsAlike(a: seq<Plugin>, b: seq<Plugin>, n: nat)
    requires n <= |a| && n <= |b| && a[..n] == b[..n]
    ensures ToolsOf(a, n) == ToolsOf(b, n)
  {
    if n > 0 {
      assert a[n - 1] == a[..n][n - 1] && b[n - 1] == b[..n][n - 1];
      assert a[..n - 1] == a[..n][..n - 1] && b[..n - 1] == b[..n][..n - 1];
      ToolsAlike(a, b, n - 1);
    }
  }

  predicate AllValid(validate: Check, plugins: seq<Plugin>) {
    forall p :: p in plugins ==> validate(p).None?
  }

  ghost predicate Naming(seen: set<string>, tools: seq<Tool>) {
    forall name :: name in seen <==> exists t :: t in tools && t.name == name
  }

  /** `name` is that of the first tool of `own` whose name is taken, by `tools` or before it. */
  ghost predicate FirstClash(tools: seq<Tool>, own: seq<Tool>, name: string) {
    exists j :: ClashAt(tools, own, name, j)
  }

  ghost predicate ClashAt(tools: seq<Tool>, own: seq<Tool>, name: string, j: int) {
    && 0 <= j < |own| && own[j].name == name
    && DistinctKeys(tools + own[..j], NameOf) && !DistinctKeys(tools + own[..j + 1], NameOf)
  }

  /** The first `n` plugins are in order and the next is not: it does not validate, or one of
      its tools has a name that is taken. */
  ghost predicate ErrorAt(validate: Check, plugins: seq<Plugin>, n: nat, error: PluginError) {
    && n < |plugins| && (forall k :: 0 <= k < n ==> validate(plugins[k]).None?)
    && DistinctKeys(ToolsOf(plugins, n), NameOf)
    && if validate(plugins[n]).Some? then validate(plugins[n]).value == error
       else error.InvalidManifest? && FirstClash(ToolsOf(plugins, n), plugins[n].manifest.tools, error.detail)
  }

  /** `aggregated_tools`: the tools of the enabled plugins in order, exactly if all of these
      validate and no two of their tools, of one plugin or of two, share a name; and else the
      error of the first plugin, in order, that breaks this. */
  method AggregatedTools(registry: seq<Registered>, validate: Check) returns (r: Result<seq<Tool>, PluginError>)
    ensures var enabled := Enabled(registry);
            && (r.Ok? <==> AllValid(validate, enabled) && DistinctKeys(AllTools(enabled), NameOf))
            && (r.Ok? ==> r.value == AllTools(enabled))
            && (r.Err? ==> exists n: nat :: ErrorAt(validate, enabled, n, r.error))
  {
    var tools: seq<Tool> := [];
    var seen: set<string> := {};
    var enabled := Enabled(registry);
    for i := 0 to |enabled|
      invariant forall k :: 0 <= k < i ==> validate(enabled[k]).None?
      invariant tools == ToolsOf(enabled, i) && DistinctKeys(tools, NameOf) && Naming(seen, tools)
    {
      var plugin := enabled[i];
      var own := plugin.manifest.tools;
      var invalid := validate(plugin);
      if invalid.Some? {
        assert plugin in enabled;
        assert ErrorAt(validate, enabled, i, invalid.value);
        return Err(invalid.value);
      }
      var clash: Option<string>;
      clash, tools, seen := AddTools(own, tools, seen);
      if clash.Some? {
        ClashAmong(enabled, i);
        assert ErrorAt(validate, enabled, i, InvalidManifest(clash.value));
        return Err(InvalidManifest(clash.value));
      }
    }
    return Ok(tools);
  }

  /** The loop over one plugin's tools: stops at the first whose name is taken. */
  method AddTools(own: seq<Tool>, tools: seq<Tool>, seen: set<string>)
    returns (clash: Option<string>, after: seq<Tool>, names: set<string>)
    requires DistinctKeys(tools, NameOf) && Naming(seen, tools)
    ensures clash.Some? <==> !DistinctKeys(tools + own, NameOf)
    ensures clash.Some? ==> FirstClash(tools, own, clash.value)
    ensures clash.None? ==> after == tools + own && Naming(names, after)
  {
    after, names := tools, seen;
    for j := 0 to |own|
      invariant after == tools + own[..j] && DistinctKeys(after, NameOf) && Naming(names, after)
    {
      var tool := own[j];
      if tool.name in names {
        Repeated(after, tool, tools, own, j);
        assert own[..j + 1][..j] == own[..j];
        Repeated(after, tool, tools, own[..j + 1], j);
        assert ClashAt(tools, own, tool.name, j);
        return Some(tool.name), after, names;
      }
      AddTool(names, after, tool);
      after := after + [tool];
      names := names + {tool.name};
    }
    assert own[..|own|] == own;
    return None, after, names;
  }

  lemma {:induction false} ClashAmong(plugins: seq<Plugin>, i: nat)
    requires i < |plugins|
    requires !DistinctKeys(ToolsOf(plugins, i) + plugins[i].manifest.tools, NameOf)
    ensures !DistinctKeys(AllTools(plugins), NameOf)
  {
    ToolsPrefix(plugins, i + 1, |plugins|);
    ClashStays(ToolsOf(plugins, i) + plugins[i].manifest.tools, AllTools(plugins));
  }

  lemma {:induction false} ClashStays(some: seq<Tool>, all: seq<Tool>)
    requires some <= all && !DistinctKeys(some, NameOf)
    ensures !DistinctKeys(all, NameOf)
  {
    var i, j :| 0 <= i < j < |some| && NameOf(some[i]) == NameOf(some[j]);
    assert all[i] == some[i] && all[j] == some[j];
  }

  lemma {:induction false} AddTool(seen: set<string>, tools: seq<Tool>, tool: Tool)
    requires Naming(seen, tools) && tool.name !in seen && DistinctKeys(tools, NameOf)
    ensures Naming(seen + {tool.name}, tools + [tool]) && DistinctKeys(tools + [tool], NameOf)
  {
    forall t ensures t in tools + [tool] <==> t in tools || t == tool {
    }
    forall i | 0 <= i < |tools| ensures tools[i].name != tool.name {
      assert tools[i] in tools;
    }
  }

  lemma {:induction false} ToolsPrefix(plugins: seq<Plugin>, i: nat, n: nat)
    requires i <= n <= |plugins|
    ensures ToolsOf(plugins, i) <= ToolsOf(plugins, n)
    decreases n
  {
    if i < n {
      ToolsPrefix(plugins, i, n - 1);
    }
  }

  lemma {:induction false} Repeated(tools: seq<Tool>, tool: Tool, before: seq<Tool>, own: seq<Tool>, j: nat)
    requires j < |own| && own[j] == tool && tools == before + own[..j]
    requires exists t :: t in tools && t.name == tool.name
    ensures !DistinctKeys(before + own, NameOf)
  {
    var t :| t in tools && t.name == tool.name;
    var i :| 0 <= i < |tools| && tools[i] == t;
    assert (before + own)[i] == t && (before + own)[|tools|] == tool;
    assert NameOf((before + own)[i]) == NameOf((before + own)[|tools|]);
  }

  // ---------- Lifecycle ----------

  datatype Visits = Visits(ids: seq<string>, error: Option<PluginError>)

  /** The identifiers of the plugins from the `i`-th on, up to and including the first for
      which `stop` gives an error. */
  function VisitFrom(plugins: seq<Plugin>, stop: Check, i: nat): Visits
    requires i <= |plugins|
    decreases |plugins| - i
  {
    if i == |plugins| then Visits([], None)
    else if stop(plugins[i]).Some? then Visits([plugins[i].id], stop(plugins[i]))
    else
      var rest := VisitFrom(plugins, stop, i + 1);
      Visits([plugins[i].id] + rest.ids, rest.error)
  }

  function Visit(plugins: seq<Plugin>, stop: Check): Visits {
    VisitFrom(plugins, stop, 0)
  }

  function InitCheck(validate: Check, init: Check): Check {
    p => if validate(p).Some? then validate(p) else init(p)
  }

  /** `initialize`: `visited` lists the plugins taken up, the last of them being the one that
      failed, if any. */
  method Initialize(registry: seq<Registered>, validate: Check, init: Check)
    returns (visited: seq<string>, error: Option<PluginError>)
    ensures Visits(visited, error) == Visit(Enabled(registry), InitCheck(validate, init))
  {
    var enabled := Enabled(registry);
    ghost var check := InitCheck(validate, init);
    visited := [];
    for i := 0 to |enabled|
      invariant Follows(visited, VisitFrom(enabled, check, i), Visit(enabled, check))
    {
      var plugin := enabled[i];
      OneMore(visited, plugin.id, VisitFrom(enabled, check, i), VisitFrom(enabled, check, i + 1));
      visited := visited + [plugin.id];
      var invalid := validate(plugin);
      if invalid.Some? {
        return visited, invalid;
      }
      var failed := init(plugin);
      if failed.Some? {
        return visited, failed;
      }
    }
    return visited, None;
  }

  /** The whole visit is `before` and then `rest`. */
  ghost predicate Follows(before: seq<string>, rest: Visits, whole: Visits) {
    whole == Visits(before + rest.ids, rest.error)
  }

  lemma {:induction false} OneMore(before: seq<string>, id: string, rest: Visits, next: Visits)
    requires rest == Visits([id] + next.ids, next.error) || (rest.ids == [id] && rest.error.Some?)
    ensures rest.ids == [id] && rest.error.Some? ==> before + rest.ids == before + [id]
    ensures before + ([id] + next.ids) == (before + [id]) + next.ids
  {
  }

  function Reversed<T>(s: seq<T>): (r: seq<T>) {
    seq(|s|, i requires 0 <= i < |s| => s[|s| - 1 - i])
  }

  /** `shutdown`: from the last enabled plugin to the first, without validating. */
  method Shutdown(registry: seq<Registered>, shutdown: Check)
    returns (visited: seq<string>, error: Option<PluginError>)
    ensures Visits(visited, error) == Visit(Reversed(Enabled(registry)), shutdown)
  {
    var order := Reversed(Enabled(registry));
    visited := [];
    for i := 0 to |order|
      invariant Follows(visited, VisitFrom(order, shutdown, i), Visit(order, shutdown))
    {
      OneMore(visited, order[i].id, VisitFrom(order, shutdown, i), VisitFrom(order, shutdown, i + 1));
      visited := visited + [order[i].id];
      var failed := shutdown(order[i]);
      if failed.Some? {
        return visited, failed;
      }
    }
    return visited, None;
  }

  /** How far a visit gets: up to the first plugin with an error, or over all of them. */
  function Reach(plugins: seq<Plugin>, stop: Check, i: nat): (n: nat)
    requires i <= |plugins|
    ensures i <= n <= |plugins|
    decreases |plugins| - i
  {
    if i == |plugins| then i else if stop(plugins[i]).Some? then i + 1 else Reach(plugins, stop, i + 1)
  }

  ghost predicate Reaches(plugins: seq<Plugin>, stop: Check, i: nat, v: Visits, n: nat) {
    && i <= n <= |plugins| && |v.ids| == n - i
    && (forall k :: 0 <= k < n - i ==> v.ids[k] == plugins[i + k].id)
    && (forall k :: i <= k < n - 1 ==> stop(plugins[k]) == None)
    && (v.error == None ==> n == |plugins| && (n > i ==> stop(plugins[n - 1]) == None))
    && (v.error.Some? ==> n > i && stop(plugins[n - 1]) == v.error)
  }

  /** The visited plugins are the first ones; each but the last went well; and the visit ends
      early only at a plugin whose error it reports. */
  lemma {:induction false} VisitReaches(plugins: seq<Plugin>, stop: Check, i: nat)
    requires i <= |plugins|
    ensures Reaches(plugins, stop, i, VisitFrom(plugins, stop, i), Reach(plugins, stop, i))
    decreases |plugins| - i
  {
    if i < |plugins| && stop(plugins[i]).None? {
      VisitReaches(plugins, stop, i + 1);
      var rest, n := VisitFrom(plugins, stop, i + 1), Reach(plugins, stop, i + 1);
      forall k | 0 <= k < n - i ensures ([plugins[i].id] + rest.ids)[k] == plugins[i + k].id {
        if k > 0 {
          assert rest.ids[k - 1] == plugins[i + 1 + (k - 1)].id;
        }
      }
    }
  }

  /** The plugin is validated and then initialized, and the first error is that of the visit:
      all before it are valid and started. Without one, all are. */
  lemma {:induction false} StartsInTurn(plugins: seq<Plugin>, validate: Check, init: Check)
    ensures var v := Visit(plugins, InitCheck(validate, init));
            && |v.ids| <= |plugins| && (forall k :: 0 <= k < |v.ids| ==> v.ids[k] == plugins[k].id)
            && (forall k :: 0 <= k < |v.ids| - 1 ==> validate(plugins[k]) == None && init(plugins[k]) == None)
            && (v.error == None ==>
                |v.ids| == |plugins| && forall p :: p in plugins ==> validate(p) == None && init(p) == None)
            && (v.error != None ==>
                && v.ids != []
                && var p := plugins[|v.ids| - 1];
                   v.error == if validate(p) != None then validate(p) else init(p))
  {
    var check := InitCheck(validate, init);
    VisitReaches(plugins, check, 0);
    var v := Visit(plugins, check);
    forall k | 0 <= k < |v.ids| ensures v.ids[k] == plugins[k].id {
      assert v.ids[k] == plugins[0 + k].id;
    }
    forall k | 0 <= k < |v.ids| - 1 || (v.error == None && 0 <= k < |v.ids|)
      ensures validate(plugins[k]) == None && init(plugins[k]) == None
    {
      assert check(plugins[k]) == None;
    }
  }

  ghost predicate InOrder(plugins: seq<Plugin>) {
    forall i, j :: 0 <= i < j < |plugins| ==> Less(plugins[i].id, plugins[j].id)
  }

  /** `plugins` are those at the places `at` of the registry, which are exactly the enabled ones
      in order, each once. */
  ghost predicate EnabledAt(registry: seq<Registered>, plugins: seq<Plugin>, at: seq<nat>) {
    && |at| == |plugins|
    && (forall k :: 0 <= k < |at| ==>
                      at[k] < |registry| && registry[at[k]].enabled && plugins[k] == registry[at[k]].plugin)
    && (forall k, l :: 0 <= k < l < |at| ==> at[k] < at[l])
    && (forall i: nat :: i < |registry| && registry[i].enabled ==> i in at)
  }

  /** The enabled plugins are those at exactly the enabled places of the registry. */
  lemma {:induction false} EnabledExactly(registry: seq<Registered>) returns (at: seq<nat>)
    ensures EnabledAt(registry, Enabled(registry), at)
  {
    if registry == [] {
      at := [];
    } else {
      var n := |registry| - 1;
      at := EnabledExactly(registry[..n]);
      EnabledLast(registry);
      if registry[n].enabled {
        OneMoreEnabled(registry, Enabled(registry[..n]), at);
        at := at + [n];
      } else {
        OneMoreDisabled(registry, Enabled(registry[..n]), at);
      }
    }
  }

  lemma {:induction false} OneMoreEnabled(registry: seq<Registered>, plugins: seq<Plugin>, at: seq<nat>)
    requires registry != [] && registry[|registry| - 1].enabled
    requires EnabledAt(registry[..|registry| - 1], plugins, at)
    ensures EnabledAt(registry, plugins + [registry[|registry| - 1].plugin], at + [|registry| - 1])
  {
    var n := |registry| - 1;
    forall i: nat | i < |registry| && registry[i].enabled ensures i in at + [n] {
      if i < n {
        assert registry[..n][i].enabled;
      } else {
        assert (at + [n])[|at|] == i;
      }
    }
  }

  lemma {:induction false} OneMoreDisabled(registry: seq<Registered>, plugins: seq<Plugin>, at: seq<nat>)
    requires registry != [] && !registry[|registry| - 1].enabled
    requires EnabledAt(registry[..|registry| - 1], plugins, at)
    ensures EnabledAt(registry, plugins + [], at)
  {
    var n := |registry| - 1;
    assert plugins + [] == plugins;
    forall i: nat | i < |registry| && registry[i].enabled ensures i in at {
      assert registry[..n][i].enabled;
    }
  }

  lemma {:induction false} EnabledLast(registry: seq<Registered>)
    requires registry != []
    ensures var n := |registry| - 1;
            Enabled(registry) == Enabled(registry[..n]) + if registry[n].enabled then [registry[n].plugin] else []
  {
    var n := |registry| - 1;
    if n == 0 {
      assert registry[1..] == [] && registry[..0] == [];
    } else {
      EnabledLast(registry[1..]);
      assert registry[1..][..n - 1] == registry[..n][1..];
    }
  }

  /** A plugin is among them exactly if it is registered as enabled. */
  lemma {:induction false} EnabledIff(registry: seq<Registered>, p: Plugin)
    ensures p in Enabled(registry) <==>
            exists i :: 0 <= i < |registry| && registry[i].enabled && registry[i].plugin == p
  {
    var at := EnabledExactly(registry);
    if i :| 0 <= i < |registry| && registry[i].enabled && registry[i].plugin == p {
      assert i in at;
      var k :| 0 <= k < |at| && at[k] == i;
      assert Enabled(registry)[k] == p;
    }
  }

  /** The configuration decides; a plugin that it does not name is on if its manifest says so,
      but an external one is off. */
  lemma {:induction false} EnabledByDefault(enabled: map<string, bool>, plugins: seq<Plugin>, i: nat)
    requires i < |plugins|
    ensures var p, r := plugins[i], Register(enabled, plugins)[i];
            && r.plugin == p
            && (p.id in enabled ==> r.enabled == enabled[p.id])
            && (p.id !in enabled && p.kind == External ==> !r.enabled)
            && (p.id !in enabled && p.kind != External ==> r.enabled == p.manifest.defaultEnabled)
  {
  }

  lemma {:induction false} EnabledInOrder(registry: seq<Registered>)
    requires forall i, j :: 0 <= i < j < |registry| ==> Less(registry[i].plugin.id, registry[j].plugin.id)
    ensures InOrder(Enabled(registry))
  {
    if registry != [] {
      EnabledInOrder(registry[1..]);
      var rest := Enabled(registry[1..]);
      var at := EnabledExactly(registry[1..]);
      forall i | 0 <= i < |rest| ensures Less(registry[0].plugin.id, rest[i].id) {
        assert registry[at[i] + 1].plugin == rest[i];
      }
    }
  }

  /** In a registry of plugins with distinct identifiers, initialization visits enabled ones in
      strictly increasing order; a complete one visits exactly those that are registered as
      enabled; and a complete shutdown visits exactly the reverse. */
  lemma {:induction false} LifecycleOrder(plugins: seq<Registered>, init: Check, shutdown: Check)
    requires DistinctKeys(plugins, RegisteredId)
    ensures var enabled := Enabled(NewRegistry(plugins));
            var up, down := Visit(enabled, init), Visit(Reversed(enabled), shutdown);
            && Increasing(up.ids)
            && (forall id :: id in up.ids ==> OnIn(plugins, id))
            && (up.error == None ==> forall id :: id in up.ids <==> OnIn(plugins, id))
            && (up.error == None && down.error == None ==>
                && |down.ids| == |up.ids|
                && forall i :: 0 <= i < |up.ids| ==> down.ids[i] == up.ids[|up.ids| - 1 - i])
  {
    var registry := NewRegistry(plugins);
    RegistryInOrder(plugins);
    VisitsInOrder(Enabled(registry), init, shutdown);
    forall id ensures (id in Visit(Enabled(registry), init).ids ==> OnIn(plugins, id))
                      && (Visit(Enabled(registry), init).error == None ==>
                          (id in Visit(Enabled(registry), init).ids <==> OnIn(plugins, id)))
    {
      VisitedAreOn(registry, init, id);
      SameOn(plugins, id);
    }
  }

  /** A plugin `id` is registered as enabled. */
  ghost predicate OnIn(registry: seq<Registered>, id: string) {
    exists r :: r in registry && r.enabled && r.plugin.id == id
  }

  lemma {:induction false} SameOn(plugins: seq<Registered>, id: string)
    ensures OnIn(NewRegistry(plugins), id) <==> OnIn(plugins, id)
  {
    SortBySorts(plugins, RegisteredId);
    forall r ensures r in NewRegistry(plugins) <==> r in plugins {
      assert r in multiset(plugins) <==> r in multiset(NewRegistry(plugins));
    }
  }

  /** A visit goes to enabled plugins only, and if it is complete to all of them. */
  lemma {:induction false} VisitedAreOn(registry: seq<Registered>, stop: Check, id: string)
    ensures var v := Visit(Enabled(registry), stop);
            && (id in v.ids ==> OnIn(registry, id))
            && (v.error == None ==> (id in v.ids <==> OnIn(registry, id)))
  {
    var enabled, v := Enabled(registry), Visit(Enabled(registry), stop);
    VisitReaches(enabled, stop, 0);
    if id in v.ids {
      var k :| 0 <= k < |v.ids| && v.ids[k] == id;
      EnabledIff(registry, enabled[0 + k]);
      var i :| 0 <= i < |registry| && registry[i].enabled && registry[i].plugin == enabled[k];
      assert registry[i] in registry;
    }
    if v.error == None && OnIn(registry, id) {
      var r :| r in registry && r.enabled && r.plugin.id == id;
      var i :| 0 <= i < |registry| && registry[i] == r;
      EnabledIff(registry, r.plugin);
      var k :| 0 <= k < |enabled| && enabled[k] == r.plugin;
      assert v.ids[k] == enabled[0 + k].id;
    }
  }

  ghost predicate Ascending(registry: seq<Registered>) {
    forall i, j :: 0 <= i < j < |registry| ==> Less(registry[i].plugin.id, registry[j].plugin.id)
  }

  lemma {:induction false} NewRegistryAscends(plugins: seq<Registered>)
    requires DistinctKeys(plugins, RegisteredId)
    ensures Ascending(NewRegistry(plugins))
  {
    var registry := NewRegistry(plugins);
    SortByIncreases(plugins, RegisteredId);
    assert registry == SortBy(plugins, RegisteredId);
    assert forall r: Registered :: RegisteredId(r) == r.plugin.id;
    forall i, j | 0 <= i < j < |registry| ensures Less(registry[i].plugin.id, registry[j].plugin.id) {
      assert Less(RegisteredId(registry[i]), RegisteredId(registry[j]));
    }
  }

  lemma {:induction false} RegistryInOrder(plugins: seq<Registered>)
    requires DistinctKeys(plugins, RegisteredId)
    ensures InOrder(Enabled(NewRegistry(plugins)))
  {
    NewRegistryAscends(plugins);
    EnabledInOrder(NewRegistry(plugins));
  }

  /** Identifiers are distinct before and after it is noted what is enabled. */
  lemma {:induction false} RegisterKeepsIds(enabled: map<string, bool>, plugins: seq<Plugin>)
    ensures DistinctKeys(plugins, IdOf) <==> DistinctKeys(Register(enabled, plugins), RegisteredId)
  {
    var registered := Register(enabled, plugins);
    assert forall i :: 0 <= i < |plugins| ==> RegisteredId(registered[i]) == IdOf(plugins[i]);
  }

  lemma {:induction false} VisitsInOrder(enabled: seq<Plugin>, init: Check, shutdown: Check)
    requires InOrder(enabled)
    ensures var up, down := Visit(enabled, init), Visit(Reversed(enabled), shutdown);
            && Increasing(up.ids)
            && (up.error == None && down.error == None ==>
                && |down.ids| == |up.ids|
                && forall i :: 0 <= i < |up.ids| ==> down.ids[i] == up.ids[|up.ids| - 1 - i])
  {
    VisitReaches(enabled, init, 0);
    VisitReaches(Reversed(enabled), shutdown, 0);
    UpAndDown(enabled, Visit(enabled, init), Reach(enabled, init, 0), init, shutdown,
              Visit(Reversed(enabled), shutdown), Reach(Reversed(enabled), shutdown, 0));
  }

  lemma {:induction false} UpAndDown(enabled: seq<Plugin>, up: Visits, n: nat, init: Check, shutdown: Check,
                                     down: Visits, m: nat)
    requires InOrder(enabled)
    requires Reaches(enabled, init, 0, up, n) && Reaches(Reversed(enabled), shutdown, 0, down, m)
    ensures Increasing(up.ids)
    ensures up.error == None && down.error == None ==> down.ids == Reversed(up.ids)
  {
    forall i, j | 0 <= i < j < |up.ids| ensures Less(up.ids[i], up.ids[j]) {
      assert Less(enabled[i].id, enabled[j].id);
    }
  }
}
