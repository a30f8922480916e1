/** Model of session compaction, `runtime/src/compact.rs`. The wording of summaries
    (`summarize_messages` merged by `merge_compact_summaries`) is a parameter. */
module Compact {
  import opened Text
  import opened Utf8

  // ---------- Sessions ----------

  datatype Role = System | User | Assistant | Tool

  datatype Block =
    | Plain(text: string)
    | Thinking(thinking: string, signature: Option<string>)
    | ToolUse(id: string, name: string, input: string)
    | ToolResult(toolUseId: string, toolName: string, output: string, isError: bool)

  datatype Message = Message(role: Role, blocks: seq<Block>)

  /** `SessionCompaction`, the record of the latest compaction. */
  datatype Compaction = Compaction(count: nat, removed: nat, summary: string)

  datatype Session = Session(messages: seq<Message>, compaction: Option<Compaction>)

  datatype Config = Config(preserveRecent: nat, maxTokens: nat)

  // ---------- Token estimate ----------

  function Len(s: string): nat {
    |Encode(s)|
  }

  function BlockTokens(b: Block): nat {
    match b
    case Plain(text) => Len(text) / 4 + 1
    case ToolUse(_, name, input) => (Len(name) + Len(input)) / 4 + 1
    case ToolResult(_, toolName, output, _) => (Len(toolName) + Len(output)) / 4 + 1
    case Thinking(thinking, signature) =>
      Len(thinking) / 4 + (if signature.Some? then Len(signature.value) / 4 + 1 else 0)
  }

  function BlocksTokens(blocks: seq<Block>): nat {
    if blocks == [] then 0 else BlockTokens(blocks[0]) + BlocksTokens(blocks[1..])
  }

  function Tokens(messages: seq<Message>): nat {
    if messages == [] then 0 else BlocksTokens(messages[0].blocks) + Tokens(messages[1..])
  }

  // ---------- The continuation message ----------

  const PREAMBLE_1 := "This session is being continued from a "
  const PREAMBLE_2 := "previous conversation that ran out of "
  const PREAMBLE_3 := "context. The summary below covers the "
  const PREAMBLE_4 := "earlier portion of the conversation.\n\n"
  const PREAMBLE := PREAMBLE_1 + PREAMBLE_2 + PREAMBLE_3 + PREAMBLE_4
  const NOTE := "Recent messages are preserved verbatim."
  const RESUME_1 := "Continue the conversation from where it "
  const RESUME_2 := "left off without asking the user any "
  const RESUME_3 := "further questions. Resume directly — do "
  const RESUME_4 := "not acknowledge the summary, do not recap "
  const RESUME_5 := "what was happening, and do not preface "
  const RESUME_6 := "with continuation text."
  const RESUME := RESUME_1 + RESUME_2 + RESUME_3 + RESUME_4 + RESUME_5 + RESUME_6

  /** The text of the continuation message around a formatted summary. */
  function Continuation(formatted: string, suppress: bool, recent: bool): string {
    PREAMBLE + (formatted + Closing(suppress, recent, NOTE, RESUME))
  }

  function Closing(suppress: bool, recent: bool, note: string, resume: string): string {
    (if recent then "\n\n" + note else "") + (if suppress then "\n" + resume else "")
  }

  function Before(s: string, marker: string): string {
    match Find(s, marker)
    case None => s
    case Some(i) => s[..i]
  }

  /** The summary inside a continuation text, after its preamble. */
  function SummaryOf(body: string): string {
    SummaryBetween(body, NOTE, RESUME)
  }

  function SummaryBetween(body: string, note: string, resume: string): string {
    Trim(Before(Before(body, "\n\n" + note), "\n" + resume))
  }

  /** `first_text_block`. */
  function FirstText(blocks: seq<Block>): Option<string> {
    if blocks == [] then None
    else if blocks[0].Plain? && Trim(blocks[0].text) != "" then Some(blocks[0].text)
    else FirstText(blocks[1..])
  }

  /** `extract_existing_compacted_summary`. */
  function ExistingSummary(m: Message): Option<string> {
    if m.role != System then None
    else match FirstText(m.blocks)
      case None => None
      case Some(text) =>
        match StripPrefix(text, PREAMBLE)
        case None => None
        case Some(body) => Some(SummaryOf(body))
  }

  function FirstSummary(messages: seq<Message>): Option<string> {
    if messages == [] then None else ExistingSummary(messages[0])
  }

  /** `compacted_summary_prefix_len`. */
  function PrefixLen(messages: seq<Message>): nat {
    if FirstSummary(messages).Some? then 1 else 0
  }

  // ---------- Compaction ----------

  function ShouldCompact(messages: seq<Message>, config: Config): bool {
    var compactable := messages[PrefixLen(messages)..];
    |compactable| > config.preserveRecent && Tokens(compactable) >= config.maxTokens
  }

  predicate StartsWithResult(m: Message) {
    m.blocks != [] && m.blocks[0].ToolResult?
  }

  predicate HasToolUse(m: Message) {
    exists b :: b in m.blocks && b.ToolUse?
  }

  function RawKeepFrom(messages: seq<Message>, config: Config): (k: nat)
    ensures k <= |messages|
  {
    if config.preserveRecent == 0 then |messages|
    else if config.preserveRecent <= |messages| then |messages| - config.preserveRecent
    else 0
  }

  /** Where the backward walk from `k` ends. */
  function WalkBack(messages: seq<Message>, prefix: nat, k: nat): nat {
    if k == 0 || k <= prefix || k >= |messages| then k
    else if !StartsWithResult(messages[k]) then k
    else if HasToolUse(messages[k - 1]) then k - 1
    else WalkBack(messages, prefix, k - 1)
  }

  function KeepFrom(messages: seq<Message>, config: Config): nat {
    WalkBack(messages, PrefixLen(messages), RawKeepFrom(messages, config))
  }

  /** How the summary text of removed messages is made: from the previous summary and
      the messages; and how a summary is formatted. */
  datatype Wording = Wording(summarize: (Option<string>, seq<Message>) -> string, format: string -> string)

  function SummaryMessage(formatted: string, recent: bool): Message {
    Message(System, [Plain(Continuation(formatted, true, recent))])
  }

  datatype Outcome = Outcome(session: Session, removed: nat)

  /** What `compact_session` returns. */
  function Compacted(session: Session, config: Config, w: Wording): Outcome {
    var ms := session.messages;
    if !ShouldCompact(ms, config) then Outcome(session, 0)
    else
      var prefix, keep := PrefixLen(ms), KeepFromBounded(ms, config);
      CompactedAt(session, prefix, keep, w.summarize(FirstSummary(ms), ms[prefix..keep]), w)
  }

  function KeepFromBounded(messages: seq<Message>, config: Config): (k: nat)
    requires ShouldCompact(messages, config)
    ensures k == KeepFrom(messages, config) && PrefixLen(messages) <= k <= RawKeepFrom(messages, config)
  {
    WalkBackBounds(messages, PrefixLen(messages), RawKeepFrom(messages, config));
    KeepFrom(messages, config)
  }

  lemma {:induction false} WalkBackBounds(messages: seq<Message>, prefix: nat, k: nat)
    requires prefix <= k
    ensures prefix <= WalkBack(messages, prefix, k) <= k
    decreases k
  {
    if prefix < k < |messages| && StartsWithResult(messages[k]) && !HasToolUse(messages[k - 1]) {
      WalkBackBounds(messages, prefix, k - 1);
    }
  }

  /** `record_compaction`. */
  function Recorded(session: Session, summary: string, removed: nat): Compaction {
    Compaction(if session.compaction.Some? then session.compaction.value.count + 1 else 1, removed, summary)
  }

  function CompactedAt(session: Session, prefix: nat, keep: nat, summary: string, w: Wording): Outcome
    requires prefix <= keep <= |session.messages|
  {
    var ms := session.messages;
    Outcome(Session([SummaryMessage(w.format(summary), keep < |ms|)] + ms[keep..],
                    Some(Recorded(session, summary, keep - prefix))),
            keep - prefix)
  }

  /** The boundary loop of `compact_session`. */
  method FindBoundary(messages: seq<Message>, prefix: nat, raw: nat) returns (k: nat)
    requires prefix <= raw <= |messages|
    ensures k == WalkBack(messages, prefix, raw) && prefix <= k <= raw
  {
    k := raw;
    while true
      invariant prefix <= k <= raw
      invariant WalkBack(messages, prefix, k) == WalkBack(messages, prefix, raw)
      decreases k
    {
      if k == 0 || k <= prefix || k >= |messages| {
        break;
      }
      if !StartsWithResult(messages[k]) {
        break;
      }
      if HasToolUse(messages[k - 1]) {
        k := k - 1;
        break;
      }
      k := k - 1;
    }
  }

  /** `compact_session`. */
  method CompactSession(session: Session, config: Config, w: Wording) returns (r: Outcome)
    ensures r == Compacted(session, config, w)
  {
    var ms := session.messages;
    if !ShouldCompact(ms, config) {
      return Outcome(session, 0);
    }
    var existing := FirstSummary(ms);
    var prefix := if existing.Some? then 1 else 0;
    var k := FindBoundary(ms, prefix, RawKeepFrom(ms, config));
    var summary := w.summarize(existing, ms[prefix..k]);
    var preserved := ms[k..];
    assert (preserved != []) == (k < |ms|);
    var message := SummaryMessage(w.format(summary), preserved != []);
    r := Outcome(Session([message] + preserved, Some(Recorded(session, summary, k - prefix))), k - prefix);
    CompactedWhere(session, config, existing, prefix, k, summary, w);
  }

  lemma {:induction false} CompactedWhere(session: Session, config: Config, existing: Option<string>, prefix: nat,
                                          k: nat, summary: string, w: Wording)
    requires ShouldCompact(session.messages, config) && existing == FirstSummary(session.messages)
    requires prefix == PrefixLen(session.messages) <= k <= |session.messages| && k == KeepFrom(session.messages, config)
    requires summary == w.summarize(existing, session.messages[prefix..k])
    ensures Compacted(session, config, w) == CompactedAt(session, prefix, k, summary, w)
  {
  }
}
