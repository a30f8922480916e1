/** Runs of the prompt cache: any interleaving of lookups, each made of an unlocked read,
    an unlocked look at the clock and a locked last step, with locked records. */
module PromptCacheRuns {
  import opened Text
  import opened PromptCache

  // ---------- The machine ----------

  /** A lookup in progress: what it read, then what it decided. */
  datatype Pending = Reading(request: Request, found: Option<Entry>) | Judged(request: Request, verdict: Verdict)

  datatype Action =
    | Begin(id: nat, request: Request)
    | Age(id: nat, now: nat)
    | Finish(id: nat, now: nat)
    | RecordResponse(request: Request, response: Response, now: nat, writtenAt: nat)
    | RecordUsage(request: Request, usage: Usage, now: nat)

  datatype Machine = Machine(state: State, pending: map<nat, Pending>, clock: nat)

  function Start(disk: Disk): Machine {
    Machine(Opened(disk), map[], 0)
  }

  /** Each lookup takes its steps in order, and the clock never goes back. */
  predicate Enabled(m: Machine, a: Action) {
    match a
    case Begin(id, _) => id !in m.pending
    case Age(id, now) => id in m.pending && m.pending[id].Reading? && m.clock <= now
    case Finish(id, now) => id in m.pending && m.pending[id].Judged? && m.clock <= now
    case RecordResponse(_, _, now, writtenAt) => m.clock <= now <= writtenAt
    case RecordUsage(_, _, now) => m.clock <= now
  }

  function Next(config: Config, m: Machine, a: Action): Machine
    requires Enabled(m, a)
  {
    match a
    case Begin(id, request) =>
      m.(pending := m.pending[id := Reading(request, ReadEntry(m.state.disk, request.key))])
    case Age(id, now) =>
      var p := m.pending[id];
      Machine(m.state, m.pending[id := Judged(p.request, Judge(config, p.found, now))], now)
    case Finish(id, now) =>
      var p := m.pending[id];
      Machine(Finished(m.state, p.request, p.verdict, now), m.pending - {id}, now)
    case RecordResponse(request, response, now, writtenAt) =>
      Machine(Recorded(config, m.state, request, response.usage, Some((response, writtenAt)), now),
              m.pending, writtenAt)
    case RecordUsage(request, usage, now) =>
      Machine(Recorded(config, m.state, request, usage, None, now), m.pending, now)
  }

  predicate Legal(config: Config, m: Machine, actions: seq<Action>)
    decreases |actions|
  {
    actions == [] || (Enabled(m, actions[0]) && Legal(config, Next(config, m, actions[0]), actions[1..]))
  }

  function Run(config: Config, m: Machine, actions: seq<Action>): Machine
    requires Legal(config, m, actions)
    decreases |actions|
  {
    if actions == [] then m else Run(config, Next(config, m, actions[0]), actions[1..])
  }

  lemma {:induction false} RunConcat(config: Config, m: Machine, a: seq<Action>, b: seq<Action>)
    ensures Legal(config, m, a + b) <==> Legal(config, m, a) && Legal(config, Run(config, m, a), b)
    ensures Legal(config, m, a + b) ==> Run(config, m, a + b) == Run(config, Run(config, m, a), b)
    decreases |a|
  {
    if a == [] {
      assert a + b == b;
    } else {
      assert (a + b)[0] == a[0] && (a + b)[1..] == a[1..] + b;
      if Enabled(m, a[0]) {
        RunConcat(config, Next(config, m, a[0]), a[1..], b);
      }
    }
  }

  // ---------- The map the cache stands for ----------

  datatype Stamped = Stamped(at: nat, response: Response)

  /** `last` is a map from which nothing is ever deleted: the latest response recorded
      under each hash and when. A lookup is overtaken when a response is recorded under its
      hash after its read; a hash is lost when an overtaken lookup has removed its entry. */
  datatype Ledger = Ledger(last: map<Key, Stamped>, overtaken: set<nat>, lost: set<Key>)

  /** The ledger of a session directory found at the start. */
  function Found(disk: Disk): Ledger {
    Ledger(map k | k in disk.entries && disk.entries[k].version == VERSION ::
             Stamped(disk.entries[k].cachedAt, disk.entries[k].response), {}, {})
  }

  predicate Removes(v: Verdict) {
    v.Expired? || v.OtherVersion?
  }

  function LookupsOf(m: Machine, key: Key): set<nat> {
    set id | id in m.pending && m.pending[id].request.key == key
  }

  function Note(l: Ledger, m: Machine, a: Action): Ledger
    requires Enabled(m, a)
  {
    match a
    case Begin(id, _) => l.(overtaken := l.overtaken - {id})
    case Finish(id, _) =>
      var p := m.pending[id];
      l.(lost := if id in l.overtaken && Removes(p.verdict) then l.lost + {p.request.key} else l.lost)
    case RecordResponse(request, response, _, writtenAt) =>
      Ledger(l.last[request.key := Stamped(writtenAt, response)],
             l.overtaken + LookupsOf(m, request.key), l.lost - {request.key})
    case _ => l
  }

  function Noted(config: Config, l: Ledger, m: Machine, actions: seq<Action>): Ledger
    requires Legal(config, m, actions)
    decreases |actions|
  {
    if actions == [] then l
    else Noted(config, Note(l, m, actions[0]), Next(config, m, actions[0]), actions[1..])
  }

  // ---------- The invariant ----------

  ghost predicate Past(config: Config, m: Machine, l: Ledger, k: Key) {
    k in l.last && l.last[k].at + config.completionTtl < m.clock
  }

  ghost predicate EntryNoted(l: Ledger, e: Entry, k: Key) {
    if e.version == VERSION then k in l.last && l.last[k] == Stamped(e.cachedAt, e.response)
    else k !in l.last
  }

  ghost predicate KeyLinked(config: Config, m: Machine, l: Ledger, k: Key) {
    && (k in m.state.disk.entries ==> EntryNoted(l, m.state.disk.entries[k], k) && k !in l.lost)
    && (k !in m.state.disk.entries && k in l.last && k !in l.lost ==> Past(config, m, l, k))
    && (k in l.lost ==> k in l.last)
  }

  ghost predicate LookupLinked(config: Config, m: Machine, l: Ledger, id: nat)
    requires id in m.pending
  {
    var p := m.pending[id];
    var k := p.request.key;
    if id in l.overtaken then k in l.last
    else match p
      case Reading(_, found) => found.Some? ==> EntryNoted(l, found.value, k)
      case Judged(_, verdict) =>
        && (verdict.Expired? ==> Past(config, m, l, k))
        && (verdict.OtherVersion? ==> k !in l.last)
  }

  ghost predicate Linked(config: Config, m: Machine, l: Ledger) {
    && (forall k :: KeyLinked(config, m, l, k))
    && (forall id | id in m.pending :: LookupLinked(config, m, l, id))
  }

  lemma {:induction false} KeyStep(config: Config, m: Machine, l: Ledger, a: Action, k: Key)
    requires Linked(config, m, l) && Enabled(m, a)
    ensures KeyLinked(config, Next(config, m, a), Note(l, m, a), k)
  {
    assert KeyLinked(config, m, l, k);
    if a.Finish? {
      assert LookupLinked(config, m, l, a.id);
    }
  }

  lemma {:induction false} LookupStep(config: Config, m: Machine, l: Ledger, a: Action, id: nat)
    requires Linked(config, m, l) && Enabled(m, a) && id in Next(config, m, a).pending
    ensures LookupLinked(config, Next(config, m, a), Note(l, m, a), id)
  {
    if id in m.pending {
      assert LookupLinked(config, m, l, id);
      assert KeyLinked(config, m, l, m.pending[id].request.key);
    } else {
      assert a.Begin? && a.id == id;
      assert KeyLinked(config, m, l, a.request.key);
    }
  }

  lemma {:induction false} LinkedStep(config: Config, m: Machine, l: Ledger, a: Action)
    requires Linked(config, m, l) && Enabled(m, a)
    ensures Linked(config, Next(config, m, a), Note(l, m, a))
  {
    forall k ensures KeyLinked(config, Next(config, m, a), Note(l, m, a), k) {
      KeyStep(config, m, l, a, k);
    }
    forall id | id in Next(config, m, a).pending ensures LookupLinked(config, Next(config, m, a), Note(l, m, a), id) {
      LookupStep(config, m, l, a, id);
    }
  }

  lemma {:induction false} LinkedRun(config: Config, m: Machine, l: Ledger, actions: seq<Action>)
    requires Linked(config, m, l) && Legal(config, m, actions)
    ensures Linked(config, Run(config, m, actions), Noted(config, l, m, actions))
    decreases |actions|
  {
    if actions != [] {
      LinkedStep(config, m, l, actions[0]);
      LinkedRun(config, Next(config, m, actions[0]), Note(l, m, actions[0]), actions[1..]);
    }
  }

  // ---------- Lookups answer from the map ----------

  /** What the ledger says a lookup should return at `now`. */
  ghost function Answer(config: Config, l: Ledger, key: Key, now: nat): Option<Response> {
    if key in l.last && now <= l.last[key].at + config.completionTtl && key !in l.lost
    then Some(l.last[key].response) else None
  }

  /** After any run, a read under a hash judged at a later time is fresh with response `r`
      exactly when `r` is the last response recorded under that hash, at most the time to
      live ago, and the hash is not lost. */
  lemma {:induction false} ReadExactly(config: Config, disk: Disk, actions: seq<Action>, key: Key, now: nat)
    requires Legal(config, Start(disk), actions) && Run(config, Start(disk), actions).clock <= now
    ensures var verdict := Judge(config, ReadEntry(Run(config, Start(disk), actions).state.disk, key), now);
            var answer := Answer(config, Noted(config, Found(disk), Start(disk), actions), key, now);
            answer == if verdict.Fresh? then Some(verdict.response) else None
  {
    LinkedRun(config, Start(disk), Found(disk), actions);
    assert KeyLinked(config, Run(config, Start(disk), actions), Noted(config, Found(disk), Start(disk), actions), key);
  }

  predicate Keeps(id: nat, actions: seq<Action>) {
    forall a <- actions :: !(a.Age? && a.id == id) && !(a.Finish? && a.id == id)
  }

  lemma {:induction false} PendingKept(config: Config, m: Machine, id: nat, actions: seq<Action>)
    requires Legal(config, m, actions) && Keeps(id, actions) && id in m.pending
    ensures id in Run(config, m, actions).pending && Run(config, m, actions).pending[id] == m.pending[id]
    decreases |actions|
  {
    if actions != [] {
      assert actions[0] in actions;
      assert Keeps(id, actions[1..]);
      PendingKept(config, Next(config, m, actions[0]), id, actions[1..]);
    }
  }

  /** A whole lookup, with anything happening between its three steps, returns what the
      ledger held at its read, aged by its own look at the clock. */
  lemma {:induction false} LookupAnswers(config: Config, disk: Disk, a: seq<Action>, id: nat, request: Request,
                                         b: seq<Action>, judgedAt: nat, c: seq<Action>)
    requires Legal(config, Start(disk), a + ([Begin(id, request)] + (b + ([Age(id, judgedAt)] + c))))
    requires Keeps(id, b) && Keeps(id, c)
    ensures Legal(config, Start(disk), a)
    ensures var m := Run(config, Start(disk), a + ([Begin(id, request)] + (b + ([Age(id, judgedAt)] + c))));
            var answer := Answer(config, Noted(config, Found(disk), Start(disk), a), request.key, judgedAt);
            && id in m.pending && m.pending[id].Judged? && m.pending[id].request == request
            && (answer.Some? <==> m.pending[id].verdict.Fresh?)
            && (answer.Some? ==> m.pending[id].verdict.response == answer.value)
  {
    var m0 := Start(disk);
    var d := [Age(id, judgedAt)] + c;
    RunConcat(config, m0, a, [Begin(id, request)] + (b + d));
    var m1 := Run(config, m0, a);
    RunConcat(config, m1, [Begin(id, request)], b + d);
    var m2 := Next(config, m1, Begin(id, request));
    RunOne(config, m1, Begin(id, request));
    RunConcat(config, m2, b, d);
    PendingKept(config, m2, id, b);
    var m3 := Run(config, m2, b);
    ClockGrows(config, m2, b);
    RunConcat(config, m3, [Age(id, judgedAt)], c);
    RunOne(config, m3, Age(id, judgedAt));
    PendingKept(config, Next(config, m3, Age(id, judgedAt)), id, c);
    ReadExactly(config, disk, a, request.key, judgedAt);
  }

  lemma {:induction false} RunOne(config: Config, m: Machine, a: Action)
    ensures Legal(config, m, [a]) <==> Enabled(m, a)
    ensures Enabled(m, a) ==> Run(config, m, [a]) == Next(config, m, a)
  {
    assert [a][1..] == [];
    if Enabled(m, a) {
      assert Legal(config, Next(config, m, a), []);
    }
  }

  lemma {:induction false} ClockGrows(config: Config, m: Machine, actions: seq<Action>)
    requires Legal(config, m, actions)
    ensures m.clock <= Run(config, m, actions).clock
    decreases |actions|
  {
    if actions != [] {
      ClockGrows(config, Next(config, m, actions[0]), actions[1..]);
    }
  }

  // ---------- Lost entries ----------

  /** No response is recorded under the hash of a lookup that is still in progress. */
  predicate Undisturbed(config: Config, m: Machine, actions: seq<Action>)
    requires Legal(config, m, actions)
    decreases |actions|
  {
    actions != [] ==>
      && (actions[0].RecordResponse? ==> LookupsOf(m, actions[0].request.key) == {})
      && Undisturbed(config, Next(config, m, actions[0]), actions[1..])
  }

  /** In such runs nothing is ever lost. */
  lemma {:induction false} NothingLost(config: Config, m: Machine, l: Ledger, actions: seq<Action>)
    requires Legal(config, m, actions) && Undisturbed(config, m, actions)
    requires l.overtaken == {} && l.lost == {}
    ensures Noted(config, l, m, actions).lost == {}
    decreases |actions|
  {
    if actions != [] {
      NothingLost(config, Next(config, m, actions[0]), Note(l, m, actions[0]), actions[1..]);
    }
  }

  /** Records only between lookups, as a single thread makes them. */
  predicate Sequential(config: Config, m: Machine, actions: seq<Action>)
    requires Legal(config, m, actions)
    decreases |actions|
  {
    actions != [] ==>
      && (actions[0].RecordResponse? ==> m.pending == map[])
      && Sequential(config, Next(config, m, actions[0]), actions[1..])
  }

  /** Sequential runs are undisturbed. */
  lemma {:induction false} SequentialIsUndisturbed(config: Config, m: Machine, actions: seq<Action>)
    requires Legal(config, m, actions) && Sequential(config, m, actions)
    ensures Undisturbed(config, m, actions)
    decreases |actions|
  {
    if actions != [] {
      SequentialIsUndisturbed(config, Next(config, m, actions[0]), actions[1..]);
    }
  }

  /** In undisturbed runs the cache refines the map from which nothing is deleted: a lookup
      answers `r` exactly when the last response recorded under the hash is `r` and at most
      the time to live old. */
  lemma {:induction false} RefinesMap(config: Config, disk: Disk, actions: seq<Action>, key: Key, now: nat, r: Response)
    requires Legal(config, Start(disk), actions) && Undisturbed(config, Start(disk), actions)
    requires Run(config, Start(disk), actions).clock <= now
    ensures var last := Noted(config, Found(disk), Start(disk), actions).last;
            Judge(config, ReadEntry(Run(config, Start(disk), actions).state.disk, key), now) == Fresh(r) <==>
            key in last && last[key].response == r && now <= last[key].at + config.completionTtl
  {
    NothingLost(config, Start(disk), Found(disk), actions);
    ReadExactly(config, disk, actions, key, now);
  }

  /** Otherwise the newest response can vanish: a lookup reads an entry and finds it
      expired, a fresh response is recorded, and the lookup then removes that one. */
  lemma {:induction false} FreshEntryRemoved(config: Config, disk: Disk, request: Request, stale: Response,
                                             response: Response)
    requires request.key in disk.entries && disk.entries[request.key] == Entry(0, VERSION, stale)
    ensures var now := config.completionTtl + 1;
            var actions := [Begin(0, request), Age(0, now),
                            RecordResponse(request, response, now, now), Finish(0, now)];
            && Legal(config, Start(disk), actions) && Legal(config, Start(disk), actions[..3])
            && Answer(config, Noted(config, Found(disk), Start(disk), actions[..3]), request.key, now) == Some(response)
            && ReadEntry(Run(config, Start(disk), actions).state.disk, request.key) == None
  {
    var now := config.completionTtl + 1;
    var a, b, c, d := Begin(0, request), Age(0, now), RecordResponse(request, response, now, now), Finish(0, now);
    var m0 := Start(disk);
    var m1 := Next(config, m0, a);
    var m2 := Next(config, m1, b);
    var m3 := Next(config, m2, c);
    RunFour(config, m0, Found(disk), a, b, c, d);
    assert [a, b, c, d][..3] == [a, b, c];
  }

  lemma {:induction false} RunFour(config: Config, m: Machine, l: Ledger, a: Action, b: Action, c: Action, d: Action)
    requires Enabled(m, a)
    requires Enabled(Next(config, m, a), b)
    requires Enabled(Next(config, Next(config, m, a), b), c)
    requires Enabled(Next(config, Next(config, Next(config, m, a), b), c), d)
    ensures var m1 := Next(config, m, a);
            var m2 := Next(config, m1, b);
            var m3 := Next(config, m2, c);
            && Legal(config, m, [a, b, c, d]) && Run(config, m, [a, b, c, d]) == Next(config, m3, d)
            && Legal(config, m, [a, b, c])
            && Noted(config, l, m, [a, b, c]) == Note(Note(Note(l, m, a), m1, b), m2, c)
  {
    var m1 := Next(config, m, a);
    var m2 := Next(config, m1, b);
    var m3 := Next(config, m2, c);
    var l2 := Note(Note(l, m, a), m1, b);
    RunOne(config, m3, d);
    RunOne(config, m2, c);
    assert [c, d][1..] == [d] && [b, c, d][1..] == [c, d] && [a, b, c, d][1..] == [b, c, d];
    assert [c][1..] == [] && [b, c][1..] == [c] && [a, b, c][1..] == [b, c];
    assert Run(config, m2, [c, d]) == Next(config, m3, d);
    assert Noted(config, l2, m2, [c]) == Note(l2, m2, c);
    assert Run(config, m1, [b, c, d]) == Next(config, m3, d);
    assert Noted(config, Note(l, m, a), m1, [b, c]) == Note(l2, m2, c);
  }

  /** A clock that goes back makes deletion visible: an entry removed as expired would be
      fresh again at the earlier time. */
  lemma {:induction false} ClockSetBack(config: Config, s: State, request: Request, at: nat, response: Response,
                                        seen: nat)
    requires request.key in s.disk.entries && s.disk.entries[request.key] == Entry(at, VERSION, response)
    ensures var late, early := at + config.completionTtl + 1, at + config.completionTtl;
            var verdict := Judge(config, ReadEntry(s.disk, request.key), late);
            && Judge(config, ReadEntry(s.disk, request.key), early) == Fresh(response)
            && Judge(config, ReadEntry(Finished(s, request, verdict, seen).disk, request.key), early) == Absent
  {
  }

  // ---------- Restart ----------

  /** Between any two steps, opening the session directory again gives the same statistics
      and the same previous prompt state as the running cache holds. */
  lemma {:induction false} RestartKeepsState(config: Config, m: Machine, actions: seq<Action>)
    requires Opened(m.state.disk) == m.state && Legal(config, m, actions)
    ensures Opened(Run(config, m, actions).state.disk) == Run(config, m, actions).state
    decreases |actions|
  {
    if actions != [] {
      RestartKeepsState(config, Next(config, m, actions[0]), actions[1..]);
    }
  }

  // ---------- Counters ----------

  datatype Event =
    | Silent
    | Hit(usage: Usage, seen: Tracked)
    | Miss
    | Logged(usage: Usage, seen: Tracked, broke: Option<Break>, wrote: bool)

  /** What one step does for its caller. */
  function EventOf(config: Config, m: Machine, a: Action): Event
    requires Enabled(m, a)
  {
    match a
    case Finish(id, now) =>
      var p := m.pending[id];
      if p.verdict.Fresh? then Hit(p.verdict.response.usage, FromUsage(p.request, p.verdict.response.usage, now))
      else Miss
    case RecordResponse(request, response, now, _) =>
      var seen := FromUsage(request, response.usage, now);
      Logged(response.usage, seen, DetectBreak(config, m.state.previous, seen), true)
    case RecordUsage(request, usage, now) =>
      var seen := FromUsage(request, usage, now);
      Logged(usage, seen, DetectBreak(config, m.state.previous, seen), false)
    case _ => Silent
  }

  function Events(config: Config, m: Machine, actions: seq<Action>): seq<Event>
    requires Legal(config, m, actions)
    decreases |actions|
  {
    if actions == [] then []
    else [EventOf(config, m, actions[0])] + Events(config, Next(config, m, actions[0]), actions[1..])
  }

  datatype Totals = Totals(finished: nat, hits: nat, records: nat, writes: nat, breaks: nat, unexpected: nat,
                           creation: nat, read: nat)

  function Bit(b: bool): nat {
    if b then 1 else 0
  }

  function Spent(e: Event): Usage {
    match e
    case Hit(usage, _) => usage
    case Logged(usage, _, _, _) => usage
    case _ => Usage(0, 0)
  }

  function TotalsOf(events: seq<Event>): Totals {
    if events == [] then Totals(0, 0, 0, 0, 0, 0, 0, 0)
    else
      var t, o := TotalsOf(events[1..]), OneTotal(events[0]);
      Totals(t.finished + o.finished, t.hits + o.hits, t.records + o.records, t.writes + o.writes,
             t.breaks + o.breaks, t.unexpected + o.unexpected, t.creation + o.creation, t.read + o.read)
  }

  /** The counters of `t` are those of `s` and `e` together. */
  ghost predicate AddUp(s: Stats, e: Totals, t: Stats) {
    && t.hits == s.hits + e.hits
    && t.hits + t.misses == s.hits + s.misses + e.finished
    && t.tracked == s.tracked + e.records
    && t.writes == s.writes + e.writes
    && t.unexpectedBreaks == s.unexpectedBreaks + e.unexpected
    && t.expectedInvalidations + t.unexpectedBreaks == s.expectedInvalidations + s.unexpectedBreaks + e.breaks
    && e.breaks <= e.records
    && t.totalCreation == s.totalCreation + e.creation
    && t.totalRead == s.totalRead + e.read
  }

  function OneTotal(e: Event): Totals {
    Totals(Bit(e.Hit? || e.Miss?), Bit(e.Hit?), Bit(e.Logged?), Bit(e.Logged? && e.wrote),
           Bit(e.Logged? && e.broke.Some?), Bit(e.Logged? && e.broke.Some? && e.broke.value.unexpected),
           Spent(e).cacheCreation, Spent(e).cacheRead)
  }

  lemma {:induction false} CountersStep(config: Config, m: Machine, a: Action)
    requires Enabled(m, a)
    ensures AddUp(m.state.stats, OneTotal(EventOf(config, m, a)), Next(config, m, a).state.stats)
  {
  }

  /** Every counter has grown by exactly what the run's events say: a hit or a miss for each
      lookup finished, one tracked request for each record, a break counted for each break
      reported, and the tokens of every hit and record. */
  lemma {:induction false} CountersAddUp(config: Config, m: Machine, actions: seq<Action>)
    requires Legal(config, m, actions)
    ensures AddUp(m.state.stats, TotalsOf(Events(config, m, actions)), Run(config, m, actions).state.stats)
    decreases |actions|
  {
    if actions != [] {
      var m1 := Next(config, m, actions[0]);
      CountersStep(config, m, actions[0]);
      CountersAddUp(config, m1, actions[1..]);
      TotalsStep(EventOf(config, m, actions[0]), Events(config, m1, actions[1..]));
    }
  }

  lemma {:induction false} TotalsStep(e: Event, rest: seq<Event>)
    ensures var t, o := TotalsOf(rest), OneTotal(e);
            TotalsOf([e] + rest) ==
            Totals(t.finished + o.finished, t.hits + o.hits, t.records + o.records, t.writes + o.writes,
                   t.breaks + o.breaks, t.unexpected + o.unexpected, t.creation + o.creation, t.read + o.read)
  {
    assert ([e] + rest)[1..] == rest;
  }

  /** The prompt state of the last event that saw one. */
  function LastSeen(previous: Option<Tracked>, events: seq<Event>): Option<Tracked>
    decreases |events|
  {
    if events == [] then previous
    else LastSeen(if events[0].Hit? || events[0].Logged? then Some(events[0].seen) else previous, events[1..])
  }

  /** A break is always judged against the latest hit or record before it, whichever
      lookups were in progress meanwhile. */
  lemma {:induction false} PreviousIsLastSeen(config: Config, m: Machine, actions: seq<Action>)
    requires Legal(config, m, actions)
    ensures Run(config, m, actions).state.previous == LastSeen(m.state.previous, Events(config, m, actions))
    decreases |actions|
  {
    if actions != [] {
      var m1 := Next(config, m, actions[0]);
      PreviousIsLastSeen(config, m1, actions[1..]);
      var e := EventOf(config, m, actions[0]);
      var rest := Events(config, m1, actions[1..]);
      assert ([e] + rest)[1..] == rest;
    }
  }

  // ---------- Breaks in terms of usages ----------

  /** A request whose usage the cache has seen, and when. */
  datatype Use = Use(request: Request, usage: Usage, at: nat)

  /** The usage that a step brings: that of a hit, or of a record. */
  function UseOf(m: Machine, a: Action): Option<Use>
    requires Enabled(m, a)
  {
    match a
    case Finish(id, now) =>
      var p := m.pending[id];
      if p.verdict.Fresh? then Some(Use(p.request, p.verdict.response.usage, now)) else None
    case RecordResponse(request, response, now, _) => Some(Use(request, response.usage, now))
    case RecordUsage(request, usage, now) => Some(Use(request, usage, now))
    case _ => None
  }

  function LastUse(config: Config, m: Machine, actions: seq<Action>, before: Option<Use>): Option<Use>
    requires Legal(config, m, actions)
    decreases |actions|
  {
    if actions == [] then before
    else
      var use := UseOf(m, actions[0]);
      LastUse(config, Next(config, m, actions[0]), actions[1..], if use.Some? then use else before)
  }

  /** What is remembered of a use. */
  ghost predicate Remembers(previous: Option<Tracked>, use: Use) {
    && previous.Some? && previous.value.observedAt == use.at && previous.value.version == VERSION
    && previous.value.prints == use.request.prints && previous.value.cacheRead == use.usage.cacheRead
  }

  lemma {:induction false} LastUseRemembered(config: Config, m: Machine, actions: seq<Action>, before: Option<Use>)
    requires Legal(config, m, actions) && (before.Some? ==> Remembers(m.state.previous, before.value))
    ensures var last := LastUse(config, m, actions, before);
            last.Some? ==> Remembers(Run(config, m, actions).state.previous, last.value)
    decreases |actions|
  {
    if actions != [] {
      var use := UseOf(m, actions[0]);
      LastUseRemembered(config, Next(config, m, actions[0]), actions[1..], if use.Some? then use else before);
    }
  }

  /** After any run, a record is a break exactly if at least the threshold fewer tokens were read
      from the cache than for the hit or record before it, or the threshold is zero; and it is
      unexpected exactly if moreover the prompt was the same by all four fingerprints and was
      seen within its time to live. */
  lemma {:induction false} BreakOfUses(config: Config, m: Machine, actions: seq<Action>, a: Action, last: Use)
    requires Legal(config, m, actions) && Enabled(Run(config, m, actions), a)
    requires LastUse(config, m, actions, None) == Some(last) && (a.RecordResponse? || a.RecordUsage?)
    ensures var m1 := Run(config, m, actions);
            var e := EventOf(config, m1, a);
            && UseOf(m1, a).Some? && e.Logged?
            && var use := UseOf(m1, a).value;
               var u1, u2 := last.usage.cacheRead, use.usage.cacheRead;
            && (e.broke.Some? <==> config.breakMinDrop == 0 || u2 + config.breakMinDrop <= u1)
            && (e.broke.Some? ==>
                && (e.broke.value.unexpected <==>
                    last.request.prints == use.request.prints && use.at <= last.at + config.promptTtl)
                && e.broke.value.previousRead == u1 && e.broke.value.currentRead == u2
                && e.broke.value.drop == if u1 <= u2 then 0 else u1 - u2)
  {
    LastUseRemembered(config, m, actions, None);
    var m1 := Run(config, m, actions);
    BreakExactly(config, m1.state.previous.value, FromUsage(a.request, UseOf(m1, a).value.usage, a.now));
  }

  /** A prompt that fills the cache and is then read back from it is no break, say. */
  lemma {:induction false} FillThenRead(config: Config, m: Machine, request: Request, tokens: nat, t: nat, u: nat)
    requires config.breakMinDrop > 0 && m.clock <= t <= u
    ensures var m1 := Next(config, m, RecordUsage(request, Usage(tokens, 0), t));
            EventOf(config, m1, RecordUsage(request, Usage(0, tokens), u)).broke == None
  {
  }

  // ---------- What is reported of the last usage ----------

  /** The statistics that describe the latest usage, lookup and break. */
  datatype Report = Report(creation: Option<nat>, read: Option<nat>, key: Option<Key>, source: Option<Source>,
                           looked: Option<Key>, reason: Option<Reason>)

  function ReportOf(stats: Stats): Report {
    Report(stats.lastCreation, stats.lastRead, stats.lastRequestHash, stats.lastSource, stats.lastCompletionKey,
           stats.lastBreakReason)
  }

  /** What a step reports: its usage, if it brings one, the hash that it looked up, if it
      finishes a lookup, and the reason of its break, if there is one. */
  function ReportBy(config: Config, m: Machine, a: Action, before: Report): Report
    requires Enabled(m, a)
  {
    var e := EventOf(config, m, a);
    var reason := if e.Logged? && e.broke.Some? then Some(e.broke.value.reason) else before.reason;
    match a
    case Finish(id, _) =>
      var p := m.pending[id];
      if !p.verdict.Fresh? then before.(looked := Some(p.request.key))
      else
        var usage := p.verdict.response.usage;
        Report(Some(usage.cacheCreation), Some(usage.cacheRead), Some(p.request.key), Some(CompletionCache),
               Some(p.request.key), before.reason)
    case RecordResponse(request, response, _, _) =>
      Report(Some(response.usage.cacheCreation), Some(response.usage.cacheRead), Some(request.key),
             Some(ApiResponse), before.looked, reason)
    case RecordUsage(request, usage, _) =>
      Report(Some(usage.cacheCreation), Some(usage.cacheRead), Some(request.key), Some(ApiResponse), before.looked,
             reason)
    case _ => before
  }

  function LastReport(config: Config, m: Machine, actions: seq<Action>, before: Report): Report
    requires Legal(config, m, actions)
    decreases |actions|
  {
    if actions == [] then before
    else LastReport(config, Next(config, m, actions[0]), actions[1..], ReportBy(config, m, actions[0], before))
  }

  /** In every interleaving the statistics name the usage of the latest hit or record, under
      its own hash and source, the hash of the latest finished lookup and the reason of the
      latest break; all else leaves them alone. */
  lemma {:induction false} StatsNameLastUsage(config: Config, m: Machine, actions: seq<Action>)
    requires Legal(config, m, actions)
    ensures ReportOf(Run(config, m, actions).state.stats) ==
            LastReport(config, m, actions, ReportOf(m.state.stats))
    decreases |actions|
  {
    if actions != [] {
      StatsNameLastUsage(config, Next(config, m, actions[0]), actions[1..]);
    }
  }
}
