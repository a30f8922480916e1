# Verified cores of the claw-code Rust crates

This project models the self-contained algorithms of the Rust workspace and proves what
they are for: a JSON printer and parser, server-sent-event framing, session compaction, the
prompt cache, the plugin manager and registry, hook runs, edit distance and skill lookup,
and the signatures, percent-decoding, hashing and UTF-8 cuts around them. Loops and objects
that change are Dafny methods and classes, each proved equal to a specification function;
the theorems are about those functions.

| module | models |
|---|---|
| `Text`, `Ordering`, `Utf8Order` | the standard-library text operations, string order and stable sorting that the code calls |
| `Json`, `JsonParser`, `JsonRoundTrip`, `JsonSyntax`, `JsonCanonical`, `JsonErrors` | `runtime/src/json.rs` (RFC 8259) |
| `Utf8`, `Utf8Fronts`, `Truncate` | `decode_complete_utf8` and `truncate_output` (RFC 3629) |
| `Sse`, `SseFraming`, `SseParser`, `SseFrames`, `SsePrinter` | `api/src/sse.rs` and the printer of the mock service (WHATWG HTML, sections 9.2.5 and 9.2.6) |
| `Compact`, `CompactRuns`, `CompactSummary`, `CompactFormat`, `CompactAccounting` | `runtime/src/compact.rs` |
| `PromptCache`, `PromptCacheRuns` | `api/src/prompt_cache.rs` |
| `Plugins`, `PluginSync`, `PluginDiscovery`, `PluginManager`, `PluginSyncFixpoint`, `PluginCopies`, `PluginRuns`, `PluginExamples`, `PluginScans`, `PluginChanges`, `PluginRegistry`, `PluginHooks` | `plugins/src/lib.rs` and `plugins/src/hooks.rs` |
| `EditDistance` | both edit distances and the field suggestion |
| `Skills`, `SkillsAgree`, `SkillNames` | listing skills and resolving one |
| `Fnv`, `Mcp`, `McpUrls` | the two FNV-1a copies; signatures and URL unwrapping in `runtime/src/mcp.rs` |

## What the code does not do

Some expected properties fail. The lemmas named here give inputs on which they fail and the
exact condition under which they hold.

- Cutting a stream into chunks is invisible only if no `\n\n` follows a `\r\n\r\n`, because a
  line-feed separator is preferred to an earlier carriage-return one (`Sse.ChunkIndependence`;
  `Sse.CutThatMatters` cuts every other stream).
- Events that arrive in the same chunk as a payload that does not decode are dropped, and
  those of earlier chunks are not (`SseParser.LostExactly`, `SsePrinter.XIsLost`).
- A printed event with a name of one line is read back exactly if its payload is of one line,
  trimmed and not `[DONE]`, and its name is not `ping` between blanks
  (`SsePrinter.SurviveExactly`).
- An event appended to text that the parser drains completely merges with the last frame of
  that text unless the text is empty or ends with a blank line made of line feeds
  (`SsePrinter.AppendedFrame`, `SsePrinter.FramesMerge`).
- `simple_edit_distance` is the edit distance only if both texts are non-empty or all is
  ASCII, since its two early returns count bytes (`EditDistance.SimpleEditDistance`,
  `EditDistance.CountsBytes`).
- A summary survives into the next compaction only if it holds neither marker sentence
  after a line break (`CompactSummary.SummarySurvives`, `CompactSummary.NoteIsLost`).
- A compaction may remove nothing and still add its message, namely when only tool results
  stand before the boundary (`CompactRuns.RemovesNothing`, `CompactRuns.ToolTurnIsKept`).
- A compaction may part a tool result from its tool use where two results stand in a row and
  the first of them holds a tool use itself or follows the old summary; nowhere else does one
  (`CompactRuns.AlwaysKeepsPaired`, `CompactRuns.SummaryPartsPair`).
- A lookup that found an expired entry removes whatever is stored when it finishes, so a
  response recorded in between is lost (`PromptCacheRuns.FreshEntryRemoved`). Lookups answer
  from the latest record exactly when that has not happened (`PromptCacheRuns.ReadExactly`).
- With a threshold of zero every record after the first is a cache break
  (`PromptCache.BreakExactly`), even one that reads more (`PromptCache.MoreReadBreaks`).
- A sync leaves the bundled directories alone unless a stale plugin was recorded in one of them
  (`PluginExamples.SourceIsRemoved`). A second one then has nothing to do only if directories
  of one plugin agree on version and description and all copies validate, which they do not
  where a stale plugin was installed (`PluginSyncFixpoint.SecondSync`). Otherwise it copies a
  version again (`PluginExamples.VersionsFlip`), or a plugin has been removed right after it
  was copied (`PluginExamples.RenamedPluginIsRemoved`).
- Two bundled plugins whose names differ only in `/`, `\`, `@` or `:` share one copy
  (`PluginExamples.CopiesShared`). Every plugin is recorded at a copy of its own exactly if
  there are no such two and no such stale plugin (`PluginCopies.CopiesAreOwn`).
- Uninstalling an external plugin takes another one's directory exactly when both are below
  one root and their names differ only in these characters (`PluginRuns.UninstallTakesOther`,
  `PluginExamples.OtherPluginIsTaken`).
- Installing a plugin from its own install path empties it and reports success; exactly then
  the new record is stale at once (`PluginRuns.InstallLeaves`,
  `PluginExamples.InstalledFromItself`).
- A registry repeats an identifier exactly when a record passes a directory off as the
  built-in plugin (`PluginDiscovery.DistinctOnDisk`, `PluginDiscovery.ImpostorIsListed`).
- A skill whose name has a blank at either end, or begins with a slash or a dollar, is not
  resolved by its own name (`SkillsAgree.ByItsOwnName`, `SkillsAgree.SlashIsOutOfReach`).
- Unwrapping a proxy URL panics exactly when its wrapped value has a percent sign with the
  inside of a character three bytes after it (`Mcp.UnwrapPanicsExactly`, `Mcp.UnwrapPanics`).
- Percent-decoding takes a plus sign for a first hexadecimal digit (`McpUrls.SignedEscape`) and leaves
  any other broken escape as it is (`McpUrls.BrokenEscape`).
- The JSON parser accepts more than RFC 8259, such as a comma before the end of an array and
  leading zeros (`JsonSyntax.TrailingComma`, `JsonSyntax.LeadingZero`). What it accepts is
  given exactly by `JsonSyntax.ParsesExactly`.

## Model

| member | source | states |
|---|---|---|
| JsonRoundTrip.RoundTrip | rust/crates/runtime/src/json.rs:38-72 | parsing the printed form of any value, with any whitespace around it, gives that value |
| JsonRoundTrip.ParseOfRendered | rust/crates/runtime/src/json.rs:63-72 | the same with any text after it: the value if only whitespace follows, otherwise the trailing-content error |
| JsonRoundTrip.RenderInjective | rust/crates/runtime/src/json.rs:38-61 | two values that print alike are equal |
| JsonCanonical.PrintsCanonically | rust/crates/runtime/src/json.rs:38-61 | a text is what a value prints as if and only if it spells a canonical tree of that meaning: no whitespace, no comma at the end, no leading zero, the short escape where there is one, four lower-case digits for the other controls, every other character as it is, keys increasing |
| JsonCanonical.CanonicalIsRendered | rust/crates/runtime/src/json.rs:38-61 | each such tree is spelled as its meaning prints, so no value has two such spellings |
| JsonCanonical.ShortestDigits | rust/crates/runtime/src/json.rs:42 | digits without a leading zero are the printed number, and no shorter ones have its value |
| Text.SixteenDigits | rust/crates/runtime/src/json.rs:135-144 | the sixteen hexadecimal digits, written in lower case and read in either |
| JsonRoundTrip.ValueRoundTrip | rust/crates/runtime/src/json.rs:161-174 | reading a value off the front of a longer text takes exactly its printed form |
| JsonRoundTrip.StringRoundTrip | rust/crates/runtime/src/json.rs:187-228 | every string, control characters included, is read back from its escaped form |
| JsonRoundTrip.NumberRoundTrip | rust/crates/runtime/src/json.rs:269-287 | every 64-bit integer is read back, the minimum included |
| Json.NumberText | rust/crates/runtime/src/json.rs:269-287 | what any sign and digits are read as: no digits, out of range, or the number |
| JsonRoundTrip.NormalForm | rust/crates/runtime/src/json.rs:38-72 | printing what was parsed and parsing again changes nothing |
| JsonSyntax.ParsesExactly | rust/crates/runtime/src/json.rs:63-72 | the parser accepts exactly the texts that spell a syntax tree, whitespace, escapes, leading zeros and trailing commas included, and gives the tree's meaning, later duplicate keys winning |
| JsonSyntax.Unambiguous | rust/crates/runtime/src/json.rs:63-72 | no text spells trees of two meanings |
| JsonSyntax.TreeRead | rust/crates/runtime/src/json.rs:161-174 | every spelled tree is read as its meaning, up to its end |
| JsonSyntax.TreeFound | rust/crates/runtime/src/json.rs:161-174 | whatever is read off a text is the spelling of some tree of that meaning |
| JsonSyntax.TrailingComma | rust/crates/runtime/src/json.rs:229-245 | an array that ends after a comma is accepted |
| JsonSyntax.LeadingZero | rust/crates/runtime/src/json.rs:269-287 | a number with a zero in front is accepted as that number |
| JsonErrors.FourBlanks | rust/crates/runtime/src/json.rs:310-314 | which characters are skipped before a value |
| JsonErrors.NothingThere | rust/crates/runtime/src/json.rs:161-174 | blank text: the input ends unexpectedly |
| JsonErrors.NoValueBegins | rust/crates/runtime/src/json.rs:161-174 | a character that begins no value is named |
| JsonErrors.BrokenLiteral | rust/crates/runtime/src/json.rs:176-185 | a literal that breaks off or goes on differently is named |
| JsonErrors.NoClosingQuote | rust/crates/runtime/src/json.rs:187-198 | a string without its closing quote is unterminated, whatever escaped text it holds |
| JsonErrors.BadEscape | rust/crates/runtime/src/json.rs:200-214 | a backslash at the end, or before a letter that is no escape |
| JsonErrors.ShortUnicode | rust/crates/runtime/src/json.rs:216-227 | an escape with fewer than four hexadecimal digits |
| JsonErrors.SurrogateRefused | rust/crates/runtime/src/json.rs:216-227 | an escaped surrogate, also one of a pair |
| JsonErrors.NoDigits | rust/crates/runtime/src/json.rs:269-287 | a minus sign without digits |
| JsonErrors.OutOfRange | rust/crates/runtime/src/json.rs:269-287 | digits beyond 64 bits, of either sign |
| JsonErrors.NoComma | rust/crates/runtime/src/json.rs:229-245 | after an element neither comma nor bracket |
| JsonErrors.ElementFails | rust/crates/runtime/src/json.rs:229-245 | an element's error is the array's |
| JsonErrors.NoKey | rust/crates/runtime/src/json.rs:247-267 | no quote where a key must be |
| JsonErrors.NoColon | rust/crates/runtime/src/json.rs:247-267 | no colon after a key |
| JsonErrors.MemberFails | rust/crates/runtime/src/json.rs:247-267 | a member value's error is the object's |
| JsonErrors.NoMemberComma | rust/crates/runtime/src/json.rs:247-267 | after a member neither comma nor brace |
| JsonRoundTrip.RenderedIsPlain | rust/crates/runtime/src/json.rs:115-144 | printed text holds no control character |
| JsonParser.Parser.ParseValue | rust/crates/runtime/src/json.rs:161-174 | the index parser reads from its position what the specification reads from the remaining text, and stops where that stops |
| JsonParser.Parser.ParseString | rust/crates/runtime/src/json.rs:187-198 | the loop over string characters and escapes against its specification |
| JsonParser.Parser.ParseUnicodeEscape | rust/crates/runtime/src/json.rs:216-227 | the loop over four hexadecimal digits, refusing surrogates |
| JsonParser.Parser.ParseArray | rust/crates/runtime/src/json.rs:229-245 | the element loop, trailing comma included, against its specification |
| JsonParser.Parser.ParseObject | rust/crates/runtime/src/json.rs:247-267 | the entry loop, later duplicates winning, against its specification |
| JsonParser.Parser.ParseNumber | rust/crates/runtime/src/json.rs:269-287 | sign, digits and range check against their specification |
| JsonParser.Parse | rust/crates/runtime/src/json.rs:63-72 | the whole parser against its specification |
| JsonParser.WriteString | rust/crates/runtime/src/json.rs:115-133 | the escaping loop prints the specified string |
| Utf8.FromUtf8Exact | rust/crates/api/src/sse.rs:92-113 | bytes decode to a text exactly when they are its encoding |
| Utf8Order.EncodedLengths | rust/crates/api/src/sse.rs:92-113 | the published encodings of one character of each length |
| Utf8.DecodeCompleteOfCut | rust/crates/api/src/sse.rs:92-113 | valid text cut after any byte decodes to exactly its whole characters |
| Utf8.WholeCharsIsMaximal | rust/crates/api/src/sse.rs:85-113 | that many characters fit into the bytes and one more does not |
| Utf8.DecodeCompleteVersusLossy | rust/crates/api/src/sse.rs:92-113 | on any bytes it differs from lossy decoding only by the replacement of a cut-off last sequence |
| Utf8Fronts.FrontExactly | rust/crates/api/src/sse.rs:92-113 | at the front of any bytes: a character where they begin with its encoding, the start of one where they end within it, else a malformed part of as many bytes as begin some character, or one |
| Utf8Fronts.StopsThere | rust/crates/api/src/sse.rs:92-113 | validation stops after the valid text, with that part's length unless the input ends within a character |
| Utf8Fronts.RepairsThere | rust/crates/api/src/sse.rs:92-113 | lossy decoding puts one replacement character for that part and goes on after it |
| Utf8.BoundaryIffWhole | rust/crates/runtime/src/bash.rs:453-465 | character boundaries are exactly the ends of leading characters |
| Truncate.FloorBoundary | rust/crates/runtime/src/bash.rs:458-461 | the backward loop ends within three steps at the end of the whole characters |
| Truncate.TruncateOutput | rust/crates/runtime/src/bash.rs:453-465 | short output is unchanged; long output keeps the characters that a decoder keeps of its first 16384 bytes: as many as fit, and not one more, before the marker |
| Sse.ChunkIndependence | rust/crates/api/src/sse.rs:28-39 | frames and leftover are the same for every chunking if and only if the stream never has a line-feed separator after a carriage-return one |
| SseFraming.NextExactly | rust/crates/api/src/sse.rs:65-90 | the next frame ends before the first two line feeds in a row, and only where there are none before the first two pairs of carriage return and line feed; without either there is none |
| SseFraming.DrainedExactly | rust/crates/api/src/sse.rs:28-39 | draining gives these frames and this rest if and only if the buffer is the frames, each with such a separator, and a rest without one |
| Sse.FeedIsDrain | rust/crates/api/src/sse.rs:28-39 | pushing chunks of an ordered stream takes the frames of one push of the whole |
| Sse.CutThatMatters | rust/crates/api/src/sse.rs:65-90 | in any other stream there is a cut after which other frames come out |
| SseParser.Parser.Push | rust/crates/api/src/sse.rs:28-39 | the events of all frames taken, or the first bad payload's error with only the frames up to it drained |
| SseParser.Parser.TakeFrame | rust/crates/api/src/sse.rs:65-90 | the frame at the front and its separator are drained, or nothing is |
| SseParser.Parser.Finish | rust/crates/api/src/sse.rs:41-57 | the leftover is read as a last frame without a cut-off character, and the buffer emptied |
| SseParser.ParseFrame | rust/crates/api/src/sse.rs:119-161 | the loop over the lines against its specification: comments, event name, joined data lines, ping and done frames |
| SseFrames.FrameReads | rust/crates/api/src/sse.rs:119-161 | a frame of comments, event names, data and other lines in any order: the payload is the data texts, without blanks in front, with exactly one line feed between neighbours, so it splits back into them; none exactly if there is no data, the last event name is `ping`, or the data is `[DONE]` |
| Text.AsciiBlanks | rust/crates/api/src/sse.rs:119-147 | which ASCII characters are trimmed |
| SseFrames.TwoDataLines | rust/crates/api/src/sse.rs:259-266 | two data lines, the halves of one payload |
| SseFrames.ErrorNames | rust/crates/api/src/sse.rs:119-161 | a payload that does not decode is reported as it is, with cause, provider and model; decoding decides, and only about frames with a payload |
| SseFrames.StreamErrorNames | rust/crates/api/src/sse.rs:28-39 | the same for the bytes of a frame in the stream |
| SseParser.FeedEventsIsRead | rust/crates/api/src/sse.rs:28-39 | all pushes together give the events of all frames, or the error of the first frame that does not decode |
| SseParser.LostExactly | rust/crates/api/src/sse.rs:28-39 | the events before a bad payload: those of earlier pushes are delivered, those of the frames pushed together with it are lost |
| SseParser.ReadUpToError | rust/crates/api/src/sse.rs:28-39 | the frames taken by a failing push are those up to and including the first that does not decode, with its error |
| SseParser.ErrorLosesTheChunk | rust/crates/api/src/sse.rs:28-39 | the same two frames in one chunk deliver nothing, in two chunks the first event |
| SsePrinter.AppendedFrame | rust/crates/mock-anthropic-service/src/lib.rs:1045-1050 | what is appended to text that the parser drains completely is exactly one more frame, if and only if the text is empty or ends with a blank line made of line feeds; it is read as the event's payload |
| SsePrinter.AppendSse | rust/crates/mock-anthropic-service/src/lib.rs:1045-1050 | two lines and an empty one are appended, which make a printed body longer by its event |
| SsePrinter.BodyEndsBlank | rust/crates/mock-anthropic-service/src/lib.rs:1045-1050 | which every printed body does |
| SsePrinter.FramesMerge | rust/crates/api/src/sse.rs:65-90 | a frame ended by carriage returns and line feeds with which what is appended merges |
| SsePrinter.PrintThenParse | rust/crates/mock-anthropic-service/src/lib.rs:1045-1050 | any chunking of the printed events gives back their payloads' events in order and leaves nothing |
| SsePrinter.SurviveExactly | rust/crates/api/src/sse.rs:119-161 | printed events with one-line names come back as one frame each, read as its payload, if and only if all payloads are trimmed lines other than `[DONE]` and no trimmed name is `ping` |
| SsePrinter.GoodEventIsLost | rust/crates/api/src/sse.rs:28-39 | of two printed events, the second of which does not decode, one chunk delivers none and two chunks the first |
| SsePrinter.XIsLost | rust/crates/api/src/sse.rs:28-39 | two such events and a decoder |
| SsePrinter.BodyDrained | rust/crates/api/src/sse.rs:65-90 | the printed bytes are split into exactly one frame for each event |
| Compact.FindBoundary | rust/crates/runtime/src/compact.rs:123-161 | the backward loop terminates within its bounds where the specified walk does |
| Compact.CompactSession | rust/crates/runtime/src/compact.rs:96-191 | session and count returned, in every branch, against the specification |
| CompactSummary.CompactedMessage | rust/crates/runtime/src/compact.rs:164-190 | first comes one system message whose one text is the preamble, the formatted summary of what stood before the boundary, the note if messages are kept, and the request to go on; the record holds the summary and one more compaction |
| CompactSummary.SummaryIsCarried | rust/crates/runtime/src/compact.rs:164-190 | the next compaction reads back that formatted summary exactly if it holds neither marker |
| CompactRuns.KeepsRecent | rust/crates/runtime/src/compact.rs:123-161 | kept is a tail of at least the messages asked for, and of more exactly if the tail asked for begins with a tool result |
| CompactRuns.WalkGoesOn | rust/crates/runtime/src/compact.rs:134-165 | the boundary moves back from a message whose first block is a tool result, only from such a one, and ends before that if the message there uses a tool |
| CompactRuns.WhenToCompact | rust/crates/runtime/src/compact.rs:41-52 | a session is compacted exactly if, leaving out a recognised first summary, it has more messages than are to be kept and at least the tokens allowed |
| CompactRuns.TokensExactly | rust/crates/runtime/src/compact.rs:458-474 | the estimate is additive over messages and blocks, and counts the fours of bytes of each kind of block |
| CompactRuns.RecognisedExactly | rust/crates/runtime/src/compact.rs:513-527 | a first message is taken for a summary exactly if it is a system message whose first visible text begins with the preamble |
| CompactRuns.Accounting | rust/crates/runtime/src/compact.rs:110-190 | one summary message and exactly the kept tail; every other message is counted as removed once |
| CompactRuns.BoundaryIsMaximal | rust/crates/runtime/src/compact.rs:123-161 | on any transcript, after the boundary and up to the place asked for there are tool results only; the boundary is on one itself exactly when that one is followed by another and holds a tool use or follows the old summary |
| CompactRuns.WalkStops | rust/crates/runtime/src/compact.rs:123-161 | on any transcript, the only places where the walk may stop on a tool result |
| CompactRuns.CompactKeepsPaired | rust/crates/runtime/src/compact.rs:96-191 | a compaction of any paired transcript parts a tool result from its tool use exactly when the boundary is such a one |
| CompactRuns.AlwaysKeepsPaired | rust/crates/runtime/src/compact.rs:96-191 | under every configuration a paired transcript stays paired if and only if it has no such place |
| CompactRuns.SoundIsSafe | rust/crates/runtime/src/compact.rs:123-161 | which is so where tool uses stand neither in tool results nor in recognised summaries |
| CompactRuns.SummaryPartsPair | rust/crates/runtime/src/compact.rs:123-161 | a summary that holds a tool use, whose two results a compaction parts from it |
| CompactRuns.RunKeepsPaired | rust/crates/runtime/src/compact.rs:96-191 | no sequence of compactions and of pushes that are answered and make no such place parts a tool result from its tool use |
| CompactRuns.SoundRunIsWellFormed | rust/crates/runtime/src/compact.rs:96-191 | pushes of sound messages never make one |
| CompactRuns.RemovesNothing | rust/crates/runtime/src/compact.rs:110-190 | on any transcript, exactly when a compaction removes no message |
| CompactRuns.RemovesNothingSound | rust/crates/runtime/src/compact.rs:110-190 | the same on sound transcripts, where only tool results matter |
| CompactRuns.ToolTurnIsKept | rust/crates/runtime/src/compact.rs:110-190 | one assistant turn with two tool results, of which nothing is removed |
| CompactRuns.Shrinks | rust/crates/runtime/src/compact.rs:41-51 | exactly when a compaction makes the transcript shorter, and when longer |
| CompactAccounting.RunAccounting | rust/crates/runtime/src/compact.rs:96-191 | over any run, the messages besides the summary and all counted as removed are those at the start and those pushed |
| CompactAccounting.RunLeavesOneSummary | rust/crates/runtime/src/compact.rs:193-201 | over any run there is at most one recognised summary, and it comes first |
| CompactSummary.CompactedIsRecognised | rust/crates/runtime/src/compact.rs:193-201 | a compacted session always begins with a recognised summary |
| CompactSummary.SummaryIsRecognised | rust/crates/runtime/src/compact.rs:513-527 | the summary message is recognised whatever the summary says, and what is then read of it |
| CompactSummary.SummarySurvives | rust/crates/runtime/src/compact.rs:71-92 | the formatted summary is read back exactly when it holds neither marker |
| CompactSummary.NoteIsLost | rust/crates/runtime/src/compact.rs:71-92 | a summary that holds the note sentence after a blank line is not read back |
| CompactSummary.ExtractionExact | rust/crates/runtime/src/compact.rs:513-527 | the same for any two closing sentences, each present or not |
| CompactSummary.CompactingAgain | rust/crates/runtime/src/compact.rs:41-51 | a second compaction keeps the same tail, and happens only if the boundary was moved back |
| CompactSummary.CollapseBlankLines | rust/crates/runtime/src/compact.rs:498-511 | the loop with its flag against the specified lines |
| CompactSummary.CollapseLeavesNoTwoBlank | rust/crates/runtime/src/compact.rs:498-511 | only blank lines go, no two stay together, and settled text is unchanged |
| CompactFormat.TagsFormatted | rust/crates/runtime/src/compact.rs:55-68 | the analysis goes and the tagged summary becomes its trimmed text under a heading, with what stands around them |
| CompactFormat.UntaggedFormatted | rust/crates/runtime/src/compact.rs:55-68 | text without tags is only cleaned |
| CompactFormat.LinesCleaned | rust/crates/runtime/src/compact.rs:498-511 | which joins its lines again without the blank lines after blank ones |
| CompactFormat.SettledKept | rust/crates/runtime/src/compact.rs:498-511 | and changes nothing where no two blank lines meet |
| CompactFormat.OneLineFormatted | rust/crates/runtime/src/compact.rs:55-68 | a one-line summary behind an analysis |
| PromptCache.Cache.constructor | rust/crates/api/src/prompt_cache.rs:120-132 | opening a session directory: stored or zero statistics and the stored prompt state |
| PromptCache.OpenedExactly | rust/crates/api/src/prompt_cache.rs:120-132 | without a statistics file nothing is counted or named, and the stored prompt state is taken over |
| PromptCache.Cache.FinishLookup | rust/crates/api/src/prompt_cache.rs:153-192 | the answer and the whole new state, on a miss, another version, an expired entry and a hit |
| PromptCache.Cache.LookupCompletion | rust/crates/api/src/prompt_cache.rs:145-193 | the same for an undisturbed lookup |
| PromptCache.Cache.RecordUsageInternal | rust/crates/api/src/prompt_cache.rs:209-243 | break, statistics, prompt state, entry and files after a record, with or without a response |
| PromptCacheRuns.StatsNameLastUsage | rust/crates/api/src/prompt_cache.rs:384-396 | in every interleaving the statistics name the usage, hash and source of the latest hit or record, the hash of the latest finished lookup and the reason of the latest break |
| PromptCache.PersistedReopens | rust/crates/api/src/prompt_cache.rs:398-404 | reopening what was persisted gives that state, exactly unless an old prompt state had nothing to be replaced by |
| PromptCache.BreakExactly | rust/crates/api/src/prompt_cache.rs:314-382 | exactly when a break is reported, and exactly when it is called unexpected |
| PromptCache.BreakReason | rust/crates/api/src/prompt_cache.rs:314-382 | the counts of a break, and its reason: another version, else exactly the parts whose fingerprints differ, else the age beyond the time to live, else none |
| PromptCacheRuns.BreakOfUses | rust/crates/api/src/prompt_cache.rs:209-243 | after any run, in usages and times: a record is a break exactly if at least the threshold fewer tokens were read from the cache than for the hit or record before it, or the threshold is zero; and unexpected exactly if moreover the prompt was the same and seen within its time to live |
| PromptCacheRuns.FillThenRead | rust/crates/api/src/prompt_cache.rs:209-243 | a prompt that fills the cache and is then read back from it is no break |
| PromptCache.MoreReadBreaks | rust/crates/api/src/prompt_cache.rs:314-382 | with a threshold of zero, one more token read is an unexpected break |
| PromptCacheRuns.ReadExactly | rust/crates/api/src/prompt_cache.rs:145-193 | after any interleaving, a read judged at a later time is fresh exactly with the last response recorded under the hash, if young enough and not lost |
| PromptCacheRuns.LookupAnswers | rust/crates/api/src/prompt_cache.rs:145-193 | a whole lookup with anything between its steps answers from the never-deleting map as it was at its read |
| PromptCacheRuns.LinkedRun | rust/crates/api/src/prompt_cache.rs:145-243 | the invariant between entries, pending lookups and that map is kept by every run |
| PromptCacheRuns.RefinesMap | rust/crates/api/src/prompt_cache.rs:145-193 | after any undisturbed run, a lookup answers with a response exactly when it is the last recorded under the hash and at most the time to live old: deletion is not observable |
| PromptCacheRuns.SequentialIsUndisturbed | rust/crates/api/src/prompt_cache.rs:145-243 | runs that record only between lookups are undisturbed |
| PromptCacheRuns.NothingLost | rust/crates/api/src/prompt_cache.rs:145-193 | without records under the hash of an unfinished lookup, nothing is ever lost |
| PromptCacheRuns.FreshEntryRemoved | rust/crates/api/src/prompt_cache.rs:170-178 | otherwise the entry just recorded can be removed by a lookup that read the old one |
| PromptCacheRuns.ClockSetBack | rust/crates/api/src/prompt_cache.rs:170-178 | a clock set back makes the deletion of an expired entry visible |
| PromptCacheRuns.RestartKeepsState | rust/crates/api/src/prompt_cache.rs:120-132 | reopening the directory between any two steps gives the running cache's state |
| PromptCacheRuns.CountersAddUp | rust/crates/api/src/prompt_cache.rs:209-243 | in every interleaving: hits and misses count finished lookups, tracked counts records, breaks are all counted and at most the records, token totals are the sums |
| PromptCacheRuns.PreviousIsLastSeen | rust/crates/api/src/prompt_cache.rs:183-187 | a break is always judged against the latest hit or record |
| Plugins.KindsApart | rust/crates/plugins/src/lib.rs:2285-2297 | plugins of different kinds share neither identifier nor directory name, hence no install path below any root |
| Plugins.PathsClash | rust/crates/plugins/src/lib.rs:2289-2297 | install paths of one kind coincide exactly when the names do after replacing four characters |
| PluginScans.Marketplaces | rust/crates/plugins/src/lib.rs:2285-2287 | the identifiers of a plugin of each kind |
| PluginScans.InstalledBelow | rust/crates/plugins/src/lib.rs:2289-2297 | the install path, character by character |
| PluginScans.TheBuiltin | rust/crates/plugins/src/lib.rs:1601-1617 | the built-in plugin brings nothing and is off unless configured |
| PluginManager.Manager.SyncBundledPlugins | rust/crates/plugins/src/lib.rs:1423-1517 | files, registry file and error after a sync, in every branch, errors midway included |
| PluginManager.Manager.Prune | rust/crates/plugins/src/lib.rs:1494-1511 | stale bundled records go, with their directories |
| PluginManager.Manager.CopyDirAll | rust/crates/plugins/src/lib.rs:1469-1472 | afterwards the target holds what the source held, everything else is unchanged, and a directory copied onto itself is emptied |
| PluginManager.Manager.DiscoverInstalledPlugins | rust/crates/plugins/src/lib.rs:1301-1377 | plugins, failures and the registry left by the two discovery loops |
| PluginManager.Manager.DiscoverExternalPlugins | rust/crates/plugins/src/lib.rs:1379-1416 | the external plugins whose identifier is new, and the failures |
| PluginManager.Manager.InstallPlugin | rust/crates/plugins/src/lib.rs:1182-1223 | files, record and both enabled maps after an installation, or its error |
| PluginManager.Manager.UninstallPlugin | rust/crates/plugins/src/lib.rs:1243-1261 | the same for an uninstallation; bundled and unknown plugins are refused |
| PluginChanges.SwitchedExactly | rust/crates/plugins/src/lib.rs:1225-1241 | a listed plugin is set to what was asked for in both enabled maps, and nothing else is; an unlisted one or a failed lookup changes neither |
| PluginChanges.SwitchedIsSeen | rust/crates/plugins/src/lib.rs:1519-1528 | the next registry lists it as it was switched, and the others as before |
| PluginChanges.InstallFails | rust/crates/plugins/src/lib.rs:1182-1223 | a source that does not load changes nothing; an unreadable registry leaves the copied files, and neither a record nor an enabled plugin |
| PluginChanges.InstallRecords | rust/crates/plugins/src/lib.rs:1182-1223 | a success stores a record of everything the manifest says, with the time, moves exactly these files and enables the plugin |
| PluginChanges.UninstallExactly | rust/crates/plugins/src/lib.rs:1243-1261 | which plugins are refused, without a change; and that of the others exactly directory, record and both settings go |
| PluginChanges.SyncCannotBegin | rust/crates/plugins/src/lib.rs:1423-1446 | an unreadable default directory counts as empty; an explicit one, another failure or an unreadable registry ends the sync without a change |
| PluginChanges.SyncBreaksOff | rust/crates/plugins/src/lib.rs:1447-1453 | the error of the first bundled directory that does not load, with what was copied before it |
| PluginChanges.SyncRecords | rust/crates/plugins/src/lib.rs:1447-1490 | a plugin whose record and copy are current stays; any other is recorded with everything its manifest says, the time of its first installation kept |
| PluginChanges.ReportFails | rust/crates/plugins/src/lib.rs:1136-1150 | the report of a registry ends with the error of its sync, or of an unreadable registry |
| PluginSyncFixpoint.SyncReaches | rust/crates/plugins/src/lib.rs:1423-1517 | after a sync the bundled records are exactly the bundled plugins; unless a stale one clashed each has its copy, valid if copies keep valid |
| PluginSyncFixpoint.SecondSync | rust/crates/plugins/src/lib.rs:1423-1517 | the bundled directories survive a sync exactly if no stale record lies in one; a second sync then has nothing to do if and only if same-named plugins agree and all copies validate, and changes nothing; if copies keep valid they all do exactly if no stale path clashed |
| PluginExamples.SourceIsRemoved | rust/crates/plugins/src/lib.rs:1494-1511 | a bundled directory removed with a stale record that lies in it |
| PluginCopies.CopiesAreOwn | rust/crates/plugins/src/lib.rs:1447-1511 | after a sync every bundled plugin is found under its own name where it is recorded, if and only if no two names become one directory name and no stale path clashed |
| PluginCopies.SyncCopiesOwn | rust/crates/plugins/src/lib.rs:1447-1490 | where no other plugin goes, the copy is the plugin's own bundled directory, or as it was if it was up to date, unless a stale one clashed and removed it |
| PluginCopies.CopyIsOwn | rust/crates/plugins/src/lib.rs:1447-1511 | such a plugin is found under its own name where it is recorded, if and only if no stale one clashed and what is copied or kept loads so there |
| PluginExamples.VersionsFlip | rust/crates/plugins/src/lib.rs:1423-1517 | two directories of one plugin in different versions: the second sync is not idle |
| PluginExamples.RenamedPluginIsRemoved | rust/crates/plugins/src/lib.rs:1494-1511 | a bundled plugin renamed within its install path is removed by the sync that installs it |
| PluginExamples.CopiesShared | rust/crates/plugins/src/lib.rs:1447-1490 | two bundled plugins recorded at one directory, which holds the second |
| PluginSyncFixpoint.IdleIsSettled | rust/crates/plugins/src/lib.rs:1447-1463 | a sync is idle exactly when every record and copy is up to date and no record is stale |
| PluginRuns.SyncKeeps | rust/crates/plugins/src/lib.rs:1423-1517 | however a sync ends, external plugins keep record and files, below whatever root they were installed; a failed one leaves the registry file |
| PluginRuns.DiscoverKeeps | rust/crates/plugins/src/lib.rs:1335-1374 | discovery drops exactly the records whose directory or manifest is gone |
| PluginRuns.RegistryIncreases | rust/crates/plugins/src/lib.rs:1136-1150 | every registry built from records of external and bundled plugins lists strictly increasing, hence distinct, identifiers |
| PluginRuns.RegistryLifecycle | rust/crates/plugins/src/lib.rs:1583-1598 | so a registry that is built starts its enabled plugins in that order, all of them and no others if none fails, and stops them in the reverse |
| PluginRuns.RunKeeps | rust/crates/plugins/src/lib.rs:1182-1261 | over any run of operations records stay well keyed, both enabled maps agree where they did, and an external plugin, below whatever root, keeps record and files unless it or one at the same path is installed or uninstalled |
| PluginRuns.InstallThenUninstall | rust/crates/plugins/src/lib.rs:1182-1261 | uninstalling undoes a first installation |
| PluginRuns.InstallLeaves | rust/crates/plugins/src/lib.rs:1182-1223 | a successful installation stores a record with the staged files, which is stale at once exactly when the staged path is the install path |
| PluginRuns.InstallIsListed | rust/crates/plugins/src/lib.rs:1182-1223 | otherwise, if the copy loads under its name, the next registry that is built lists the plugin as enabled |
| PluginExamples.InstalledFromItself | rust/crates/plugins/src/lib.rs:1190-1194 | such an installation reports success and leaves an empty directory |
| PluginRuns.UninstallTakesOther | rust/crates/plugins/src/lib.rs:1254-1256 | uninstalling one plugin removes another's files exactly when both are below one root and their names clash |
| PluginExamples.OtherPluginIsTaken | rust/crates/plugins/src/lib.rs:1254-1256 | two installations and an uninstallation after which the other plugin is recorded and enabled without files |
| PluginDiscovery.DistinctOnDisk | rust/crates/plugins/src/lib.rs:1301-1416 | identifiers of all discovered plugins are distinct exactly when no record passes a directory off as the built-in plugin |
| PluginDiscovery.FoundExactly | rust/crates/plugins/src/lib.rs:1301-1377 | discovery finds exactly the identifiers as which a directory of the install root, or of a record that is not gone, loads |
| PluginScans.InstalledAreRead | rust/crates/plugins/src/lib.rs:1301-1377 | each plugin found is read from such a directory, under the kind recorded for it |
| PluginScans.InstalledExactly | rust/crates/plugins/src/lib.rs:1301-1377 | and it is the first such directory that loads under the plugin's identifier, those of the install root before those of the records; every such plugin is found |
| PluginScans.KindOfFirst | rust/crates/plugins/src/lib.rs:1301-1333 | the kind of a directory is that of the first record at it |
| PluginScans.KindOfNone | rust/crates/plugins/src/lib.rs:1301-1333 | and external if there is none |
| PluginScans.ExternalExactly | rust/crates/plugins/src/lib.rs:1379-1416 | of the external directories, exactly the plugins with a new identifier, each from the first directory that loads as it |
| PluginScans.FailuresExactly | rust/crates/plugins/src/lib.rs:1301-1377 | the failures reported are exactly the directories that do not load, with kinds and errors |
| PluginScans.ExternalFailures | rust/crates/plugins/src/lib.rs:1379-1416 | the same for the external directories |
| PluginScans.ExternalDirectories | rust/crates/plugins/src/lib.rs:2267-2283 | which directories these are: those with either manifest file |
| PluginScans.BuiltExactly | rust/crates/plugins/src/lib.rs:744-755 | a registry is built exactly if none of all these directories fails to load |
| PluginDiscovery.ImpostorIsListed | rust/crates/plugins/src/lib.rs:1301-1416 | a disk whose registry holds one identifier twice |
| PluginDiscovery.StaleExactly | rust/crates/plugins/src/lib.rs:1335-1344 | which records the second discovery loop marks as stale |
| PluginRegistry.AggregatedTools | rust/crates/plugins/src/lib.rs:818-837 | succeeds if and only if the enabled plugins validate and their tool names are distinct, with the tools in order; else the error of the first plugin that breaks this |
| PluginRegistry.Initialize | rust/crates/plugins/src/lib.rs:839-845 | the plugins visited and the error that ended the visit |
| PluginRegistry.Shutdown | rust/crates/plugins/src/lib.rs:847-857 | the same from the last plugin to the first |
| PluginRegistry.VisitReaches | rust/crates/plugins/src/lib.rs:839-857 | the visited are the first plugins, all but the last went well, and an early end reports that one's error |
| PluginRegistry.StartsInTurn | rust/crates/plugins/src/lib.rs:839-845 | each plugin is validated and then initialized; all before the first error are valid and started, and without an error all are |
| PluginRegistry.EnabledExactly | rust/crates/plugins/src/lib.rs:808-857 | the plugins visited and aggregated are those at exactly the enabled places of the registry, in order and each once |
| PluginRegistry.EnabledIff | rust/crates/plugins/src/lib.rs:808-857 | a plugin is among them if and only if it is registered as enabled |
| PluginRegistry.EnabledByDefault | rust/crates/plugins/src/lib.rs:1519-1528 | the configuration decides; else the manifest, but an external plugin is off |
| PluginRegistry.ToolsTogether | rust/crates/plugins/src/lib.rs:818-837 | their tools are those of each, in the order of the plugins |
| PluginRegistry.LifecycleOrder | rust/crates/plugins/src/lib.rs:779-857 | initialization visits enabled plugins only, in strictly increasing order, and a complete one exactly all of these; a full shutdown in exactly the reverse |
| Ordering.SortByIncreases | rust/crates/plugins/src/lib.rs:781-784 | sorting plugins with distinct identifiers puts these in strictly increasing order |
| Ordering.SortByIsStable | rust/crates/commands/src/lib.rs:4191 | elements with one key keep their order |
| Utf8Order.LessExactly | rust/crates/plugins/src/lib.rs:781-784 | one text comes before another exactly if it ends sooner or has the smaller character at the first difference |
| Utf8Order.ByteOrder | rust/crates/plugins/src/lib.rs:781-784 | which is the order of the encoded bytes, in which the code compares |
| Text.LowerLetters | rust/crates/runtime/src/config_validate.rs:441-447 | the letters of the alphabet lose their case, and nothing else changes |
| PluginHooks.RunCommands | rust/crates/plugins/src/hooks.rs:121-175 | the loop with its early exits against the specified run |
| PluginHooks.StopsAtFirst | rust/crates/plugins/src/hooks.rs:121-175 | every command before the last one run allowed, the result is that last one's, and the messages are those of the commands run, in order |
| PluginHooks.OneCommand | rust/crates/plugins/src/hooks.rs:137-170 | what one command makes of a run: its message or warning, and the standing text for a denial without one |
| PluginHooks.RunsInTurn | rust/crates/plugins/src/hooks.rs:121-175 | a run of two lists is the first and then, unless it stopped, the second |
| PluginHooks.HooksInTurn | rust/crates/plugins/src/lib.rs:808-816 | running the aggregated hooks is running each enabled plugin's in turn up to the first denial or failure; aggregation succeeds exactly if all validate |
| PluginHooks.CommandsTogether | rust/crates/plugins/src/lib.rs:808-816 | each event has its own list, and one more plugin's list comes last |
| PluginHooks.AggregateFails | rust/crates/plugins/src/lib.rs:808-816 | the error is that of the first plugin that does not validate |
| EditDistance.LevenshteinDistance | rust/crates/commands/src/lib.rs:1963-1990 | two rows compute the recursive distance |
| EditDistance.SimpleEditDistance | rust/crates/runtime/src/config_validate.rs:453-476 | the same, exactly when both texts are non-empty or all is ASCII |
| EditDistance.CountsBytes | rust/crates/runtime/src/config_validate.rs:453-460 | one two-byte character counts as two edits from the empty text |
| EditDistance.Metric | rust/crates/commands/src/lib.rs:1963-1990 | zero exactly for equal texts, symmetric, triangle inequality |
| EditDistance.LeastEdits | rust/crates/commands/src/lib.rs:1963-1990 | the distance is the least number of insertions, deletions and substitutions |
| EditDistance.SuggestField | rust/crates/runtime/src/config_validate.rs:441-451 | the first nearest candidate, and none exactly if all are more than three edits away |
| EditDistance.FieldDistanceExactly | rust/crates/runtime/src/config_validate.rs:441-476 | what is compared: the least number of edits between the lower-case texts; but for an empty one, the bytes of the other |
| EditDistance.ExactFieldIsSuggested | rust/crates/runtime/src/config_validate.rs:441-451 | a field spelled as a candidate up to case is answered with that spelling |
| Skills.LoadSkills | rust/crates/commands/src/lib.rs:4115-4208 | succeeds exactly if all roots are readable, else with the first error; each skill is shadowed by the first earlier one of its name up to case |
| SkillNames.EntryExactly | rust/crates/commands/src/lib.rs:4124-4188 | which entries are skills in either kind of root, under which name, source and path |
| SkillNames.MarkdownFiles | rust/crates/commands/src/lib.rs:4164-4177 | a legacy file is one exactly if its extension is `md` in any case; its stem is the name it falls back on |
| SkillNames.NoExtension | rust/crates/commands/src/lib.rs:4164-4177 | a name without a dot after its first character has no extension |
| SkillNames.ListedExactly | rust/crates/commands/src/lib.rs:4115-4208 | listed is exactly what an entry of one of the roots makes a skill |
| SkillNames.ListedInTurn | rust/crates/commands/src/lib.rs:4120-4202 | root by root, and in each by name |
| Skills.ResolveSkillPath | rust/crates/commands/src/lib.rs:3091-3161 | the loop over roots against the specified search, errors included |
| SkillsAgree.ResolutionIsListed | rust/crates/commands/src/lib.rs:3091-3161 | a file is found exactly when the listing has an unshadowed skill of the requested name, and it is that skill's |
| SkillsAgree.ResolutionFails | rust/crates/commands/src/lib.rs:3091-3161 | otherwise an empty request, the first unreadable root, or no such skill is reported |
| SkillNames.RequestedExactly | rust/crates/commands/src/lib.rs:3092 | a request asks for a name if and only if it is that name after blanks, slashes and then dollars, and before blanks |
| SkillsAgree.OneUnshadowed | rust/crates/commands/src/lib.rs:4193-4201 | of each name up to case exactly one listed skill is unshadowed, and the others name its source |
| SkillsAgree.ByItsOwnName | rust/crates/commands/src/lib.rs:3092-3098 | an unshadowed skill is resolved by its own name exactly when that name is left as it is by the trimming of requests |
| SkillsAgree.SlashIsOutOfReach | rust/crates/commands/src/lib.rs:3092-3098 | a listed, unshadowed skill named with a slash that its name does not find |
| Fnv.StableHashBytes | rust/crates/api/src/prompt_cache.rs:504-511 | the loop computes FNV-1a |
| Fnv.PublishedValues | rust/crates/api/src/prompt_cache.rs:504-511 | the published hashes of no bytes and of one |
| Fnv.XorBitAt | rust/crates/api/src/prompt_cache.rs:504-511 | the exclusive or, bit by bit |
| Fnv.StableHexHash | rust/crates/runtime/src/mcp.rs:152-159 | the other copy computes the same hash and writes sixteen digits |
| Fnv.OneByteDiffers | rust/crates/api/src/prompt_cache.rs:504-511 | equal-length inputs that differ in one byte never collide |
| Fnv.CommonSuffix | rust/crates/api/src/prompt_cache.rs:504-511 | a common ending neither makes nor removes a collision |
| Fnv.HexHashFaithful | rust/crates/api/src/prompt_cache.rs:435-440 | hash texts are equal exactly when the hashes are |
| Fnv.HexReadsBack | rust/crates/runtime/src/mcp.rs:158 | the sixteen lower-case digits read as a number are the hash |
| Mcp.CommandSignature | rust/crates/runtime/src/mcp.rs:123-129 | signatures are equal exactly for equal commands, but that no word and one empty word look alike |
| Mcp.ReadJoined | rust/crates/runtime/src/mcp.rs:123-129 | a non-empty command can be read back from its signature |
| Mcp.SameSignature | rust/crates/runtime/src/mcp.rs:65-81 | server signatures are equal exactly for equal command lines or equal unwrapped URLs |
| McpUrls.StdioSignature | rust/crates/runtime/src/mcp.rs:65-69 | the text of a command line of words without backslash and pipe |
| McpUrls.EscapedText | rust/crates/runtime/src/mcp.rs:123-129 | in other words exactly backslashes and pipes get a backslash in front |
| McpUrls.RemoteSignature | rust/crates/runtime/src/mcp.rs:70-81 | the text of a remote server's, and that a server of the program's own has none |
| Mcp.PercentDecodeLoop | rust/crates/runtime/src/mcp.rs:178-203 | the decoding loop against its specification, stopping where slicing inside a character would panic |
| Mcp.DecodeEncoded | rust/crates/runtime/src/mcp.rs:178-205 | decoding undoes percent-encoding (RFC 3986, sections 2.1 and 2.3) for every byte string |
| McpUrls.DecodedWithoutPercent | rust/crates/runtime/src/mcp.rs:178-205 | without percent signs exactly the plus signs become blanks |
| McpUrls.EscapeDecoded | rust/crates/runtime/src/mcp.rs:183-190 | a percent sign and two hexadecimal digits of either case are one byte |
| McpUrls.SignedEscape | rust/crates/runtime/src/mcp.rs:183-190 | so are a percent sign, a plus sign and one digit |
| McpUrls.BrokenEscape | rust/crates/runtime/src/mcp.rs:183-193 | any other percent sign stays |
| Mcp.PanicsExactly | rust/crates/runtime/src/mcp.rs:183-186 | the slice fails exactly when some percent sign has the inside of a character three bytes after it |
| Mcp.UnwrapPanicsExactly | rust/crates/runtime/src/mcp.rs:40-62 | unwrapping fails exactly when there is such a wrapped value |
| Mcp.UnwrapPanics | rust/crates/runtime/src/mcp.rs:40-62 | a wrapped value on which it does |
| Mcp.UnwrapRecovers | rust/crates/runtime/src/mcp.rs:40-62 | the wrapped URL is recovered from any marked proxy URL without an earlier query |
| McpUrls.MarkedExactly | rust/crates/runtime/src/mcp.rs:41-46 | a proxy URL is one that holds either path |
| McpUrls.KeptWithoutQuery | rust/crates/runtime/src/mcp.rs:41-50 | a URL without a marker or without a query stays as it is |
| McpUrls.KeptWithoutValue | rust/crates/runtime/src/mcp.rs:52-62 | so does a marked one none of whose pairs is named `mcp_url` and has a value |
| McpUrls.UnwrappedFromFirst | rust/crates/runtime/src/mcp.rs:52-60 | any other marked URL becomes the decoded value of the first such pair |

## Left out

- Decoding of event payloads, serialization of requests and of stored files: serde is not modelled; payload decoding is a parameter, a request is the hashes of its serialized parts, and files hold values.
- The wording of summaries (`summarize_messages`, `merge_compact_summaries`): heuristic text, a parameter of compaction.
- The timestamps and token usage of messages: compaction does not look at them.
- The clock is a parameter of each operation that reads it, and it is monotone in the runs of the prompt cache, except in `PromptCacheRuns.ClockSetBack`.
- Failed writes and half-written files: writing and removing files succeeds and is atomic. A lookup that reads a half-written entry would count a miss.
- Overflow of the 64-bit counters of the prompt cache, and the wording of break reasons beyond what they mention.
- `sanitize_path_segment` and the location of the cache directory; two processes on one session directory.
- Manifest parsing and validation: a parameter that may depend on where the directory is. Directories are values of a flat map, so a plugin directory inside another one is not modelled.
- PluginSyncFixpoint.SecondSync: takes for granted that the install and bundled roots differ.
- PluginCopies.CopiesAreOwn: takes for granted that a bundled plugin still validates, under its name, where it is copied to, and that copies that are up to date when the sync starts have their names; `PluginCopies.CopyIsOwn` does not.
- PluginRuns.RunKeeps: takes for granted that records are kept under their identifiers and in directories named after these, as every record that the manager writes is.
- SsePrinter.SurviveExactly: event names of one line, which those of the mock service are; a name with line feeds can add any lines to its frame.
- Starting hook and lifecycle processes: parameters give the outcome of each command, for hooks in the order of execution.
- `update` of a plugin, `validate_plugin_source`, unreadable settings files, and the failure of reading an external directory: further straight-line branches.
- Enabling and disabling are values of a function, not methods, because they go through the whole registry report.
- PluginDiscovery.DistinctOnDisk: takes for granted that records installed at one place are of one kind, which every record that the manager writes is; `PluginDiscovery.IdsDistinct` needs no such thing.
- Parsing of skill front matter (a parameter) and the reported name drift between front matter and directory.
- `suggest_slash_commands`, `normalize_name_for_mcp`, `scoped_mcp_config_hash` and the key-by-key configuration diagnostics: shallow text processing.
- The rest of `bash.rs`, `bash_validation.rs`, HTTP clients, provider dispatch, slash-command tables, reports and the user interface.
