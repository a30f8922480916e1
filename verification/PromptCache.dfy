/** Model of the prompt and completion cache, `api/src/prompt_cache.rs`. Reading the
    clock is a parameter, the cache directory is a map of entries and two files, and
    writing a file succeeds. */
module PromptCache {
  import opened Text
  import Fnv

  const VERSION: nat := 1

  datatype Config = Config(completionTtl: nat, promptTtl: nat, breakMinDrop: nat)

  /** The two token counts of a usage report that the cache reads. */
  datatype Usage = Usage(cacheCreation: nat, cacheRead: nat)

  datatype Response = Response(usage: Usage, body: string)

  /** A request hash. Its text, `v1-` and sixteen hexadecimal digits, determines it
      (`Fnv.HexHashFaithful`). */
  type Key = Fnv.Hash

  /** `RequestFingerprints`. */
  datatype Fingerprints = Fingerprints(model: Fnv.Hash, system: Fnv.Hash, tools: Fnv.Hash, messages: Fnv.Hash)

  /** All that the cache sees of a request: the hash of its serialisation, and the hashes
      of its four parts. */
  datatype Request = Request(key: Key, prints: Fingerprints)

  /** `CompletionCacheEntry`. */
  datatype Entry = Entry(cachedAt: nat, version: nat, response: Response)

  /** `TrackedPromptState`. */
  datatype Tracked = Tracked(observedAt: nat, version: nat, prints: Fingerprints, cacheRead: nat)

  datatype Part = Model | SystemPrompt | ToolDefinitions | MessagePayload

  datatype Reason =
    | VersionChanged(before: nat, after: nat)
    | Changed(parts: seq<Part>)
    | PossibleTtlExpiry(elapsed: nat)
    | Unexplained

  /** `CacheBreakEvent`. */
  datatype Break = Break(unexpected: bool, reason: Reason, previousRead: nat, currentRead: nat, drop: nat)

  datatype Source = CompletionCache | ApiResponse

  datatype Stats = Stats(
    tracked: nat,
    hits: nat,
    misses: nat,
    writes: nat,
    expectedInvalidations: nat,
    unexpectedBreaks: nat,
    totalCreation: nat,
    totalRead: nat,
    lastCreation: Option<nat>,
    lastRead: Option<nat>,
    lastRequestHash: Option<Key>,
    lastCompletionKey: Option<Key>,
    lastBreakReason: Option<Reason>,
    lastSource: Option<Source>)

  const ZERO := Stats(0, 0, 0, 0, 0, 0, 0, 0, None, None, None, None, None, None)

  /** The session directory: completion entries by request hash, and what the statistics
      file and the session state file hold, `None` when missing or unreadable. */
  datatype Disk = Disk(entries: map<Key, Entry>, stats: Option<Stats>, previous: Option<Tracked>)

  datatype State = State(stats: Stats, previous: Option<Tracked>, disk: Disk)

  /** What `with_config` makes of a session directory. */
  function Opened(disk: Disk): State {
    State(if disk.stats.Some? then disk.stats.value else ZERO, disk.previous, disk)
  }

  // ---------- Cache breaks ----------

  /** `TrackedPromptState::from_usage`. */
  function FromUsage(request: Request, usage: Usage, now: nat): Tracked {
    Tracked(now, VERSION, request.prints, usage.cacheRead)
  }

  function SaturatingSub(a: nat, b: nat): nat {
    if b <= a then a - b else 0
  }

  function ChangedParts(a: Fingerprints, b: Fingerprints): seq<Part> {
    (if a.model != b.model then [Model] else []) +
    (if a.system != b.system then [SystemPrompt] else []) +
    (if a.tools != b.tools then [ToolDefinitions] else []) +
    (if a.messages != b.messages then [MessagePayload] else [])
  }

  /** `detect_cache_break`. */
  function DetectBreak(config: Config, previous: Option<Tracked>, current: Tracked): Option<Break> {
    if previous.None? then None
    else
      var before := previous.value;
      var drop := SaturatingSub(before.cacheRead, current.cacheRead);
      if before.version != current.version then
        Some(Break(false, VersionChanged(before.version, current.version), before.cacheRead, current.cacheRead, drop))
      else if drop < config.breakMinDrop then None
      else
        var parts := ChangedParts(before.prints, current.prints);
        var elapsed := SaturatingSub(current.observedAt, before.observedAt);
        var why :=
          if parts != [] then (false, Changed(parts))
          else if elapsed > config.promptTtl then (false, PossibleTtlExpiry(elapsed))
          else (true, Unexplained);
        Some(Break(why.0, why.1, before.cacheRead, current.cacheRead, drop))
  }

  /** When the version is unchanged, a break is reported exactly when at least
      `breakMinDrop` fewer tokens were read from the cache; a threshold of zero turns every
      record into a break, even one that reads more. It is called unexpected exactly when
      nothing explains it: the same prompt by all four fingerprints, seen again within the
      prompt's time to live. */
  lemma {:induction false} BreakExactly(config: Config, before: Tracked, current: Tracked)
    ensures var broke := DetectBreak(config, Some(before), current);
            && (broke.Some? <==>
                || before.version != current.version
                || config.breakMinDrop == 0 || current.cacheRead + config.breakMinDrop <= before.cacheRead)
            && (broke.Some? && broke.value.unexpected <==>
                && before.version == current.version
                && (config.breakMinDrop == 0 || current.cacheRead + config.breakMinDrop <= before.cacheRead)
                && before.prints == current.prints
                && current.observedAt <= before.observedAt + config.promptTtl)
  {
  }

  /** The reason of a break: another version; else the parts whose fingerprints differ, exactly;
      else that the prompt is older than its time to live, by how long; else none. And the
      counts it was judged by. */
  lemma {:induction false} BreakReason(config: Config, before: Tracked, current: Tracked)
    requires DetectBreak(config, Some(before), current).Some?
    ensures var broke := DetectBreak(config, Some(before), current).value;
            && broke.previousRead == before.cacheRead && broke.currentRead == current.cacheRead
            && broke.drop == (if before.cacheRead <= current.cacheRead then 0 else before.cacheRead - current.cacheRead)
            && match broke.reason
               case VersionChanged(former, latter) =>
                 former == before.version && latter == current.version && former != latter && !broke.unexpected
               case Changed(parts) =>
                 && before.version == current.version && before.prints != current.prints && !broke.unexpected
                 && (Model in parts <==> before.prints.model != current.prints.model)
                 && (SystemPrompt in parts <==> before.prints.system != current.prints.system)
                 && (ToolDefinitions in parts <==> before.prints.tools != current.prints.tools)
                 && (MessagePayload in parts <==> before.prints.messages != current.prints.messages)
               case PossibleTtlExpiry(elapsed) =>
                 && before.version == current.version && before.prints == current.prints && !broke.unexpected
                 && before.observedAt + elapsed == current.observedAt && elapsed > config.promptTtl
               case Unexplained =>
                 && before.version == current.version && before.prints == current.prints && broke.unexpected
                 && current.observedAt <= before.observedAt + config.promptTtl
  {
  }

  /** With a threshold of zero the same prompt, seen again at once with one more token read from
      the cache, is an unexpected break by a drop of zero. */
  lemma {:induction false} MoreReadBreaks(config: Config, before: Tracked)
    requires config.breakMinDrop == 0
    ensures DetectBreak(config, Some(before), before.(cacheRead := before.cacheRead + 1)) ==
            Some(Break(true, Unexplained, before.cacheRead, before.cacheRead + 1, 0))
  {
    assert ChangedParts(before.prints, before.prints) == [];
  }

  // ---------- Steps ----------

  /** `apply_usage_to_stats`. */
  function ApplyUsage(stats: Stats, usage: Usage, key: Key, source: Source): Stats {
    stats.(totalCreation := stats.totalCreation + usage.cacheCreation,
    totalRead := stats.totalRead + usage.cacheRead,
    lastCreation := Some(usage.cacheCreation),
    lastRead := Some(usage.cacheRead),
    lastRequestHash := Some(key),
    lastSource := Some(source))
  }

  /** `persist_state`. */
  function Persisted(stats: Stats, previous: Option<Tracked>, disk: Disk): State {
    State(stats, previous,
          disk.(stats := Some(stats), previous := if previous.Some? then previous else disk.previous))
  }

  /** Reopening the directory after a persist gives the state that was persisted, unless there
      was no prompt state to write over one that the directory still holds. */
  lemma {:induction false} PersistedReopens(stats: Stats, previous: Option<Tracked>, disk: Disk)
    ensures var s := Persisted(stats, previous, disk);
            && (Opened(s.disk) == s <==> previous.Some? || disk.previous.None?)
            && s.disk.entries == disk.entries
  {
  }

  /** A directory without a statistics file is opened with nothing counted and nothing named;
      any other with what the file holds, and either with the stored prompt state. */
  lemma {:induction false} OpenedExactly(disk: Disk)
    ensures Opened(disk).disk == disk && Opened(disk).previous == disk.previous
    ensures disk.stats.Some? ==> Opened(disk).stats == disk.stats.value
    ensures disk.stats.None? ==>
              var s := Opened(disk).stats;
              && s.tracked == s.hits == s.misses == s.writes == s.expectedInvalidations == s.unexpectedBreaks == 0
              && s.totalCreation == s.totalRead == 0 && s.lastCreation == s.lastRead == None
              && s.lastRequestHash == s.lastCompletionKey == None && s.lastBreakReason == None && s.lastSource == None
  {
  }

  function ReadEntry(disk: Disk, key: Key): Option<Entry> {
    if key in disk.entries then Some(disk.entries[key]) else None
  }

  /** What a lookup decides about the entry it read. */
  datatype Verdict = Absent | OtherVersion | Expired | Fresh(response: Response)

  function Judge(config: Config, found: Option<Entry>, now: nat): Verdict {
    if found.None? then Absent
    else if found.value.version != VERSION then OtherVersion
    else if SaturatingSub(now, found.value.cachedAt) > config.completionTtl then Expired
    else Fresh(found.value.response)
  }

  /** The locked last step of `lookup_completion`. */
  function Finished(s: State, request: Request, verdict: Verdict, now: nat): State {
    var key := request.key;
    var stats := s.stats.(lastCompletionKey := Some(key));
    if verdict.Fresh? then
      var usage := verdict.response.usage;
      Persisted(ApplyUsage(stats.(hits := stats.hits + 1), usage, key, CompletionCache),
                Some(FromUsage(request, usage, now)), s.disk)
    else
      var disk := if verdict.Absent? then s.disk else s.disk.(entries := s.disk.entries - {key});
      Persisted(stats.(misses := stats.misses + 1), s.previous, disk)
  }

  function Counted(stats: Stats, broke: Option<Break>): Stats {
    if broke.None? then stats
    else if broke.value.unexpected then
      stats.(unexpectedBreaks := stats.unexpectedBreaks + 1, lastBreakReason := Some(broke.value.reason))
    else
      stats.(expectedInvalidations := stats.expectedInvalidations + 1, lastBreakReason := Some(broke.value.reason))
  }

  /** `record_usage_internal`; a written response carries the time of its writing. */
  function Recorded(config: Config, s: State, request: Request, usage: Usage,
                    response: Option<(Response, nat)>, now: nat): State
  {
    var key := request.key;
    var current := FromUsage(request, usage, now);
    var broke := DetectBreak(config, s.previous, current);
    var stats := Counted(ApplyUsage(s.stats.(tracked := s.stats.tracked + 1), usage, key, ApiResponse), broke);
    if response.None? then Persisted(stats, Some(current), s.disk)
    else
      var entry := Entry(response.value.1, VERSION, response.value.0);
      Persisted(stats.(writes := stats.writes + 1), Some(current),
                s.disk.(entries := s.disk.entries[key := entry]))
  }

  /** `PromptCacheInner` together with the session directory it writes to. */
  class Cache {
    const config: Config
    var stats: Stats
    var previous: Option<Tracked>
    var entries: map<Key, Entry>
    var statsFile: Option<Stats>
    var stateFile: Option<Tracked>

    ghost function Directory(): Disk
      reads this
    {
      Disk(entries, statsFile, stateFile)
    }

    ghost function Value(): State
      reads this
    {
      State(stats, previous, Directory())
    }

    /** `with_config` over an existing session directory. */
    constructor (config: Config, disk: Disk)
      ensures this.config == config
      ensures Value() == Opened(disk)
    {
      this.config := config;
      stats := match disk.stats { case Some(s) => s case None => ZERO };
      previous := disk.previous;
      entries := disk.entries;
      statsFile := disk.stats;
      stateFile := disk.previous;
    }

    method PersistState()
      modifies `statsFile, `stateFile
      ensures Value() == Persisted(old(stats), old(previous), old(Directory()))
    {
      statsFile := Some(stats);
      if previous.Some? {
        stateFile := previous;
      }
    }

    method ApplyUsageToStats(usage: Usage, key: Key, source: Source)
      modifies `stats
      ensures stats == ApplyUsage(old(stats), usage, key, source)
    {
      stats := stats.(totalCreation := stats.totalCreation + usage.cacheCreation);
      stats := stats.(totalRead := stats.totalRead + usage.cacheRead);
      stats := stats.(lastCreation := Some(usage.cacheCreation));
      stats := stats.(lastRead := Some(usage.cacheRead));
      stats := stats.(lastRequestHash := Some(key));
      stats := stats.(lastSource := Some(source));
    }

    method CountBreak(broke: Option<Break>)
      modifies `stats
      ensures stats == Counted(old(stats), broke)
    {
      if broke.Some? {
        if broke.value.unexpected {
          stats := stats.(unexpectedBreaks := stats.unexpectedBreaks + 1);
        } else {
          stats := stats.(expectedInvalidations := stats.expectedInvalidations + 1);
        }
        stats := stats.(lastBreakReason := Some(broke.value.reason));
      }
    }

    /** `write_completion_entry` and its counter. */
    method WriteCompletionEntry(key: Key, response: Response, writtenAt: nat)
      modifies `entries, `stats
      ensures entries == old(entries)[key := Entry(writtenAt, VERSION, response)]
      ensures stats == old(stats).(writes := old(stats).writes + 1)
    {
      entries := entries[key := Entry(writtenAt, VERSION, response)];
      stats := stats.(writes := stats.writes + 1);
    }

    /** `lookup_completion` after its unlocked read of the entry file: the age is judged
        against `judgedAt`, and the lock is taken for the rest. */
    method FinishLookup(request: Request, found: Option<Entry>, judgedAt: nat, now: nat)
      returns (answer: Option<Response>)
      modifies this
      ensures var verdict := Judge(config, found, judgedAt);
              && answer == (if verdict.Fresh? then Some(verdict.response) else None)
              && Value() == Finished(old(Value()), request, verdict, now)
    {
      var key := request.key;
      if found.None? {
        stats := stats.(misses := stats.misses + 1, lastCompletionKey := Some(key));
        PersistState();
        return None;
      }
      var entry := found.value;
      if entry.version != VERSION {
        stats := stats.(misses := stats.misses + 1, lastCompletionKey := Some(key));
        entries := entries - {key};
        PersistState();
        return None;
      }
      var expired := SaturatingSub(judgedAt, entry.cachedAt) > config.completionTtl;
      stats := stats.(lastCompletionKey := Some(key));
      if expired {
        stats := stats.(misses := stats.misses + 1);
        entries := entries - {key};
        PersistState();
        return None;
      }
      stats := stats.(hits := stats.hits + 1);
      ApplyUsageToStats(entry.response.usage, key, CompletionCache);
      previous := Some(FromUsage(request, entry.response.usage, now));
      PersistState();
      return Some(entry.response);
    }

    /** `lookup_completion` with nothing in between its steps. */
    method LookupCompletion(request: Request, judgedAt: nat, now: nat) returns (answer: Option<Response>)
      modifies this
      ensures var verdict := Judge(config, ReadEntry(old(Directory()), request.key), judgedAt);
              && answer == (if verdict.Fresh? then Some(verdict.response) else None)
              && Value() == Finished(old(Value()), request, verdict, now)
    {
      var key := request.key;
      var found := if key in entries then Some(entries[key]) else None;
      answer := FinishLookup(request, found, judgedAt, now);
    }

    /** `record_usage_internal`. */
    method RecordUsageInternal(request: Request, usage: Usage, response: Option<Response>, now: nat, writtenAt: nat)
      returns (broke: Option<Break>, reported: Stats)
      modifies this
      ensures broke == DetectBreak(config, old(previous), FromUsage(request, usage, now))
      ensures reported == stats
      ensures var written := if response.Some? then Some((response.value, writtenAt)) else None;
              Value() == Recorded(config, old(Value()), request, usage, written, now)
    {
      var key := request.key;
      var current := FromUsage(request, usage, now);
      broke := DetectBreak(config, previous, current);
      stats := stats.(tracked := stats.tracked + 1);
      ApplyUsageToStats(usage, key, ApiResponse);
      CountBreak(broke);
      previous := Some(current);
      if response.None? {
        PersistState();
      } else {
        WriteCompletionEntry(key, response.value, writtenAt);
        PersistState();
      }
      reported := stats;
    }
  }
}
