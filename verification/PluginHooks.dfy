/** Hook runs, `plugins/src/hooks.rs`: how a command ends is a parameter that may depend on
    how many commands have run before it. */
module PluginHooks {
  import opened Text
  import opened Plugins
  import opened PluginDiscovery
  import opened PluginRegistry

  /** `HookCommandOutcome`. */
  datatype Outcome = Allow(message: Option<string>) | Deny(message: Option<string>) | Failed(warning: string)

  /** `HookRunResult`. */
  datatype RunResult = RunResult(denied: bool, failed: bool, messages: seq<string>) {
    predicate Stopped() {
      denied || failed
    }
  }

  /** How the command text run as the n-th ends. */
  type Oracle = (nat, string) -> Outcome

  function MessagesOf(message: Option<string>): seq<string> {
    if message.Some? then [message.value] else []
  }

  /** What one command contributes; `denial` is the text for a denial without one. */
  function One(outcome: Outcome, denial: string): RunResult {
    match outcome
    case Allow(message) => RunResult(false, false, MessagesOf(message))
    case Deny(message) => RunResult(true, false, [if message.Some? then message.value else denial])
    case Failed(warning) => RunResult(false, true, [warning])
  }

  /** First `a` and then, unless it stopped, `b`. */
  function Then(a: RunResult, b: RunResult): RunResult {
    if a.Stopped() then a else RunResult(b.denied, b.failed, a.messages + b.messages)
  }

  const ALLOWED := RunResult(false, false, [])

  /** The commands from the `i`-th on, the first of them being the `t`-th that is run. */
  function RunFrom(oracle: Oracle, t: nat, commands: seq<string>, denial: string, i: nat): RunResult
    requires i <= |commands|
    decreases |commands| - i
  {
    if i == |commands| then ALLOWED
    else Then(One(oracle(t, commands[i]), denial), RunFrom(oracle, t + 1, commands, denial, i + 1))
  }

  function Run(oracle: Oracle, t: nat, commands: seq<string>, denial: string): RunResult {
    RunFrom(oracle, t, commands, denial, 0)
  }

  /** `run_commands`. */
  method RunCommands(oracle: Oracle, t: nat, commands: seq<string>, denial: string) returns (r: RunResult)
    ensures r == Run(oracle, t, commands, denial)
  {
    if commands == [] {
      return RunResult(false, false, []);
    }
    var messages: seq<string> := [];
    for i := 0 to |commands|
      invariant Then(RunResult(false, false, messages), RunFrom(oracle, t + i, commands, denial, i)) ==
                Run(oracle, t, commands, denial)
    {
      ghost var rest := RunFrom(oracle, t + i + 1, commands, denial, i + 1);
      ghost var before := messages;
      match oracle(t + i, commands[i]) {
        case Allow(message) =>
          assert before + (MessagesOf(message) + rest.messages) == (before + MessagesOf(message)) + rest.messages;
          if message.Some? {
            messages := messages + [message.value];
          } else {
            assert before + MessagesOf(message) == before;
          }
        case Deny(message) =>
          messages := messages + [if message.Some? then message.value else denial];
          return RunResult(true, false, messages);
        case Failed(warning) =>
          messages := messages + [warning];
          return RunResult(false, true, messages);
      }
    }
    return RunResult(false, false, messages);
  }

  // ---------- Where a run stops ----------

  /** How many commands are run. */
  function Executed(oracle: Oracle, t: nat, commands: seq<string>, i: nat): (n: nat)
    requires i <= |commands|
    ensures i <= n <= |commands|
    decreases |commands| - i
  {
    if i == |commands| then i
    else if !oracle(t, commands[i]).Allow? then i + 1
    else Executed(oracle, t + 1, commands, i + 1)
  }

  /** The messages of the commands from the `i`-th up to the `n`-th, in order. */
  function Spoken(oracle: Oracle, t: nat, commands: seq<string>, denial: string, i: nat, n: nat): seq<string>
    requires i <= n <= |commands|
    decreases n - i
  {
    if i == n then []
    else One(oracle(t, commands[i]), denial).messages + Spoken(oracle, t + 1, commands, denial, i + 1, n)
  }

  /** All commands before the last one run allow; the run is denied or failed exactly as
      that last one is; only then are commands left out; and the messages are those of the
      commands that were run. */
  lemma {:induction false} StopsAtFirst(oracle: Oracle, t: nat, commands: seq<string>, denial: string, i: nat)
    requires i <= |commands|
    ensures var r, n := RunFrom(oracle, t, commands, denial, i), Executed(oracle, t, commands, i);
            && (forall k :: i <= k < n - 1 ==> oracle(t + (k - i), commands[k]).Allow?)
            && (r.denied <==> n > i && oracle(t + (n - 1 - i), commands[n - 1]).Deny?)
            && (r.failed <==> n > i && oracle(t + (n - 1 - i), commands[n - 1]).Failed?)
            && (n < |commands| ==> r.denied || r.failed)
            && r.messages == Spoken(oracle, t, commands, denial, i, n)
    decreases |commands| - i
  {
    if i < |commands| && !oracle(t, commands[i]).Allow? {
      assert Spoken(oracle, t + 1, commands, denial, i + 1, i + 1) == [];
    }
    if i < |commands| && oracle(t, commands[i]).Allow? {
      StopsAtFirst(oracle, t + 1, commands, denial, i + 1);
      var n := Executed(oracle, t, commands, i);
      forall k | i + 1 <= k < n - 1 ensures oracle(t + (k - i), commands[k]).Allow? {
        assert t + (k - i) == t + 1 + (k - (i + 1));
      }
      assert t + (n - 1 - i) == t + 1 + (n - 1 - (i + 1));
    }
  }

  /** A denial without a text speaks `denial`; an allowed command may speak, a failed one
      warns. */
  lemma {:induction false} OneCommand(oracle: Oracle, t: nat, command: string, denial: string)
    ensures var r := Run(oracle, t, [command], denial);
            match oracle(t, command)
            case Allow(None) => r == RunResult(false, false, [])
            case Allow(Some(message)) => r == RunResult(false, false, [message])
            case Deny(None) => r == RunResult(true, false, [denial])
            case Deny(Some(message)) => r == RunResult(true, false, [message])
            case Failed(warning) => r == RunResult(false, true, [warning])
  {
    assert RunFrom(oracle, t + 1, [command], denial, 1) == RunResult(false, false, []);
  }

  /** A run of more commands: the first ones, and if these all allow, the others after them. */
  lemma {:induction false} RunsInTurn(oracle: Oracle, t: nat, a: seq<string>, b: seq<string>, denial: string)
    ensures var first, second := Run(oracle, t, a, denial), Run(oracle, t + |a|, b, denial);
            Run(oracle, t, a + b, denial) ==
            if first.denied || first.failed then first
            else RunResult(second.denied, second.failed, first.messages + second.messages)
  {
    RunConcat(oracle, t, a, b, denial, 0);
  }

  // ---------- Running all plugins' hooks ----------

  datatype HookEvent = PreToolUse | PostToolUse | PostToolUseFailure

  function CommandsOf(hooks: Hooks, event: HookEvent): seq<string> {
    match event
    case PreToolUse => hooks.preToolUse
    case PostToolUse => hooks.postToolUse
    case PostToolUseFailure => hooks.postToolUseFailure
  }

  /** `merged_with`. */
  function MergedWith(a: Hooks, b: Hooks): Hooks {
    Hooks(a.preToolUse + b.preToolUse, a.postToolUse + b.postToolUse, a.postToolUseFailure + b.postToolUseFailure)
  }

  /** `aggregated_hooks` over the enabled plugins, its fold going on from `acc`. */
  function AggregatedHooks(validate: Check, acc: Hooks, plugins: seq<Plugin>): Result<Hooks, PluginError>
    decreases |plugins|
  {
    if plugins == [] then Ok(acc)
    else
      var invalid := validate(plugins[0]);
      if invalid.Some? then Err(invalid.value)
      else AggregatedHooks(validate, MergedWith(acc, plugins[0].manifest.hooks), plugins[1..])
  }

  /** Each plugin's hooks as a run of its own, until one of the runs stops. */
  function RunEach(oracle: Oracle, t: nat, plugins: seq<Plugin>, event: HookEvent, denial: string): RunResult
    decreases |plugins|
  {
    if plugins == [] then ALLOWED
    else
      var commands := CommandsOf(plugins[0].manifest.hooks, event);
      Then(Run(oracle, t, commands, denial), RunEach(oracle, t + |commands|, plugins[1..], event, denial))
  }

  lemma {:induction false} RunConcat(oracle: Oracle, t: nat, a: seq<string>, b: seq<string>, denial: string, i: nat)
    requires i <= |a|
    ensures RunFrom(oracle, t, a + b, denial, i) ==
            Then(RunFrom(oracle, t, a, denial, i), Run(oracle, t + (|a| - i), b, denial))
    decreases |a| - i
  {
    if i == |a| {
      RunOfRest(oracle, t, a, b, denial, 0);
      assert [] + Run(oracle, t, b, denial).messages == Run(oracle, t, b, denial).messages;
    } else {
      RunConcat(oracle, t + 1, a, b, denial, i + 1);
      assert t + 1 + (|a| - (i + 1)) == t + (|a| - i);
      ThenAssociates(One(oracle(t, a[i]), denial), RunFrom(oracle, t + 1, a, denial, i + 1),
                     Run(oracle, t + (|a| - i), b, denial));
    }
  }

  lemma {:induction false} RunOfRest(oracle: Oracle, t: nat, a: seq<string>, b: seq<string>, denial: string, i: nat)
    requires i <= |b|
    ensures RunFrom(oracle, t, a + b, denial, |a| + i) == RunFrom(oracle, t, b, denial, i)
    decreases |b| - i
  {
    if i < |b| {
      RunOfRest(oracle, t + 1, a, b, denial, i + 1);
      assert (a + b)[|a| + i] == b[i];
    }
  }

  lemma {:induction false} ThenAssociates(a: RunResult, b: RunResult, c: RunResult)
    ensures Then(Then(a, b), c) == Then(a, Then(b, c))
  {
    assert (a.messages + b.messages) + c.messages == a.messages + (b.messages + c.messages);
  }

  lemma {:induction false} MergedCommands(acc: Hooks, own: Hooks, event: HookEvent)
    ensures CommandsOf(MergedWith(acc, own), event) == CommandsOf(acc, event) + CommandsOf(own, event)
  {
  }

  lemma {:induction false} AggregatedRun(validate: Check, oracle: Oracle, t: nat, acc: Hooks, plugins: seq<Plugin>,
                                         event: HookEvent, denial: string)
    requires AggregatedHooks(validate, acc, plugins).Ok?
    ensures var all := AggregatedHooks(validate, acc, plugins).value;
            var first := CommandsOf(acc, event);
            Run(oracle, t, CommandsOf(all, event), denial) ==
            Then(Run(oracle, t, first, denial), RunEach(oracle, t + |first|, plugins, event, denial))
    decreases |plugins|
  {
    var first := CommandsOf(acc, event);
    if plugins == [] {
      var r := Run(oracle, t, first, denial);
      assert r.messages + [] == r.messages;
    } else {
      var merged := MergedWith(acc, plugins[0].manifest.hooks);
      AggregatedRun(validate, oracle, t, merged, plugins[1..], event, denial);
      MergedCommands(acc, plugins[0].manifest.hooks, event);
      EachStep(oracle, t, first, plugins, event, denial);
    }
  }

  lemma {:induction false} EachStep(oracle: Oracle, t: nat, first: seq<string>, plugins: seq<Plugin>,
                                    event: HookEvent, denial: string)
    requires plugins != []
    ensures var merged := first + CommandsOf(plugins[0].manifest.hooks, event);
            Then(Run(oracle, t, merged, denial), RunEach(oracle, t + |merged|, plugins[1..], event, denial)) ==
            Then(Run(oracle, t, first, denial), RunEach(oracle, t + |first|, plugins, event, denial))
  {
    var own := CommandsOf(plugins[0].manifest.hooks, event);
    var rest := RunEach(oracle, t + |first| + |own|, plugins[1..], event, denial);
    RunConcat(oracle, t, first, own, denial, 0);
    assert Run(oracle, t, first + own, denial) ==
           Then(Run(oracle, t, first, denial), Run(oracle, t + |first|, own, denial));
    ThenAssociates(Run(oracle, t, first, denial), Run(oracle, t + |first|, own, denial), rest);
    assert RunEach(oracle, t + |first|, plugins, event, denial) == Then(Run(oracle, t + |first|, own, denial), rest);
  }

  /** Each event has its own list of commands, and these are put together in the order of the
      plugins. */
  lemma {:induction false} CommandsTogether(validate: Check, a: seq<Plugin>, p: Plugin, event: HookEvent)
    requires AllValid(validate, a + [p])
    ensures var none := Hooks([], [], []);
            var before, all := AggregatedHooks(validate, none, a), AggregatedHooks(validate, none, a + [p]);
            && before.Ok? && all.Ok?
            && CommandsOf(all.value, event) ==
               CommandsOf(before.value, event) + match event
                                                 case PreToolUse => p.manifest.hooks.preToolUse
                                                 case PostToolUse => p.manifest.hooks.postToolUse
                                                 case PostToolUseFailure => p.manifest.hooks.postToolUseFailure
    ensures AggregatedHooks(validate, Hooks([], [], []), []) == Ok(Hooks([], [], []))
  {
    AggregateLast(validate, Hooks([], [], []), a, p);
    MergedCommands(AggregatedHooks(validate, Hooks([], [], []), a).value, p.manifest.hooks, event);
  }

  lemma {:induction false} AggregateLast(validate: Check, acc: Hooks, a: seq<Plugin>, p: Plugin)
    requires AllValid(validate, a + [p])
    ensures AggregatedHooks(validate, acc, a).Ok?
    ensures AggregatedHooks(validate, acc, a + [p]) ==
            Ok(MergedWith(AggregatedHooks(validate, acc, a).value, p.manifest.hooks))
    decreases |a|
  {
    assert (a + [p])[0] in a + [p];
    if a != [] {
      assert (a + [p])[1..] == a[1..] + [p];
      AggregateLast(validate, MergedWith(acc, a[0].manifest.hooks), a[1..], p);
    }
  }

  /** The first plugin that does not validate is the error of the aggregation. */
  lemma {:induction false} AggregateFails(validate: Check, acc: Hooks, plugins: seq<Plugin>, n: nat)
    requires n < |plugins| && validate(plugins[n]).Some? && forall k :: 0 <= k < n ==> validate(plugins[k]).None?
    ensures AggregatedHooks(validate, acc, plugins) == Err(validate(plugins[n]).value)
    decreases n
  {
    if n > 0 {
      AggregateFails(validate, MergedWith(acc, plugins[0].manifest.hooks), plugins[1..], n - 1);
    }
  }

  /** Aggregation succeeds exactly if every enabled plugin validates; and running the
      aggregated hooks is running each enabled plugin's hooks in turn, up to the first that
      denies or fails, with the messages of all runs together. */
  lemma {:induction false} HooksInTurn(validate: Check, oracle: Oracle, registry: seq<Registered>, event: HookEvent,
                                       denial: string)
    ensures var plugins := Enabled(registry);
            var all := AggregatedHooks(validate, Hooks([], [], []), plugins);
            && (all.Ok? <==> AllValid(validate, plugins))
            && (all.Ok? ==> Run(oracle, 0, CommandsOf(all.value, event), denial) ==
                            RunEach(oracle, 0, plugins, event, denial))
  {
    var plugins := Enabled(registry);
    AggregatesIff(validate, Hooks([], [], []), plugins);
    if AllValid(validate, plugins) {
      AggregatedRun(validate, oracle, 0, Hooks([], [], []), plugins, event, denial);
      var r := RunEach(oracle, 0, plugins, event, denial);
      assert CommandsOf(Hooks([], [], []), event) == [];
      assert [] + r.messages == r.messages;
    }
  }

  lemma {:induction false} AggregatesIff(validate: Check, acc: Hooks, plugins: seq<Plugin>)
    ensures AggregatedHooks(validate, acc, plugins).Ok? <==> AllValid(validate, plugins)
    decreases |plugins|
  {
    if plugins != [] {
      AggregatesIff(validate, MergedWith(acc, plugins[0].manifest.hooks), plugins[1..]);
      assert plugins == [plugins[0]] + plugins[1..];
    }
  }
}
