/** What compaction keeps, removes and never breaks: accounting, the choice of the
    boundary, and the pairing of tool results with their tool uses over every run of
    pushes and compactions. */
module CompactRuns {
  import opened Text
  import opened Utf8
  import opened Compact

  // ---------- Accounting ----------

  /** Whenever a session is compacted: one summary message and exactly the kept tail,
      every other message counted as removed, once. */
  lemma {:induction false} Accounting(session: Session, config: Config, w: Wording)
    requires ShouldCompact(session.messages, config)
    ensures var ms, r := session.messages, Compacted(session, config, w);
            var keep := KeepFrom(ms, config);
            && PrefixLen(ms) <= keep <= RawKeepFrom(ms, config) <= |ms|
            && r.session.messages[1..] == ms[keep..]
            && r.session.messages[0].role == System
            && PrefixLen(ms) + r.removed + |r.session.messages[1..]| == |ms|
            && r.session.compaction.Some? && r.session.compaction.value.removed == r.removed
  {
    var keep := KeepFromBounded(session.messages, config);
  }

  // ---------- Pairing ----------

  predicate Uses(m: Message, id: string) {
    exists b :: b in m.blocks && b.ToolUse? && b.id == id
  }

  /** Message `j` holds the tool use that message `i` answers, and only answers stand
      between them. */
  predicate Answers(ms: seq<Message>, i: nat, j: nat) {
    && j < i < |ms| && StartsWithResult(ms[i])
    && Uses(ms[j], ms[i].blocks[0].toolUseId)
    && forall k :: j < k < i ==> StartsWithResult(ms[k])
  }

  ghost predicate Answered(ms: seq<Message>, i: nat) {
    exists j: nat :: Answers(ms, i, j)
  }

  /** A transcript that a provider accepts: every tool result follows its tool use. */
  ghost predicate Paired(ms: seq<Message>) {
    forall i: nat :: i < |ms| && StartsWithResult(ms[i]) ==> Answered(ms, i)
  }

  /** Tool uses stand neither in answers nor in what the next compaction takes for a summary. */
  predicate Sound(m: Message) {
    HasToolUse(m) ==> !StartsWithResult(m) && ExistingSummary(m) == None
  }

  predicate AllSound(ms: seq<Message>) {
    forall m :: m in ms ==> Sound(m)
  }

  /** A tool result that is pushed next follows its tool use. */
  ghost predicate MayFollow(ms: seq<Message>, m: Message) {
    StartsWithResult(m) ==> Answered(ms + [m], |ms|)
  }

  lemma {:induction false} AnswersShift(ms: seq<Message>, n: nat, i: nat, j: nat)
    requires n <= j && i < |ms| && Answers(ms, i, j)
    ensures Answers(ms[n..], i - n, j - n)
  {
  }

  lemma {:induction false} AnswersExtend(ms: seq<Message>, front: seq<Message>, i: nat, j: nat)
    requires Answers(ms, i, j)
    ensures Answers(front + ms, |front| + i, |front| + j)
  {
    var all := front + ms;
    forall k | |front| + j < k < |front| + i ensures StartsWithResult(all[k]) {
      assert all[k] == ms[k - |front|];
    }
  }

  lemma {:induction false} AnswersGrow(ms: seq<Message>, more: seq<Message>, i: nat, j: nat)
    requires Answers(ms, i, j)
    ensures Answers(ms + more, i, j)
  {
  }

  lemma {:induction false} PushKeepsPaired(ms: seq<Message>, m: Message)
    requires Paired(ms) && MayFollow(ms, m)
    ensures Paired(ms + [m])
  {
    forall i: nat | i < |ms + [m]| && StartsWithResult((ms + [m])[i]) ensures Answered(ms + [m], i) {
      if i < |ms| {
        var j: nat :| Answers(ms, i, j);
        AnswersGrow(ms, [m], i, j);
      }
    }
  }

  // ---------- The boundary ----------

  /** On any transcript, the walk stops on a tool result only at the old summary or
      where a message is both a result and a tool use. */
  lemma {:induction false} WalkStops(ms: seq<Message>, prefix: nat, k: nat)
    requires prefix <= k <= |ms|
    ensures var keep := WalkBack(ms, prefix, k);
            && (keep < |ms| && StartsWithResult(ms[keep]) ==> keep == prefix || HasToolUse(ms[keep]))
            && (forall i :: keep < i <= k && i < |ms| ==> StartsWithResult(ms[i]))
            && (keep < k ==> k < |ms|)
            && (keep == k < |ms| && StartsWithResult(ms[k]) ==> k == prefix)
    decreases k
  {
    if prefix < k < |ms| && StartsWithResult(ms[k]) && !HasToolUse(ms[k - 1]) {
      WalkBackBounds(ms, prefix, k - 1);
      WalkStops(ms, prefix, k - 1);
    }
  }

  /** Two results in a row between which the walk back ends: the first of them holds a tool
      use, or it is the message right after the old summary. */
  predicate Trap(ms: seq<Message>, k: nat) {
    && PrefixLen(ms) <= k && k + 1 < |ms|
    && StartsWithResult(ms[k]) && StartsWithResult(ms[k + 1])
    && (HasToolUse(ms[k]) || k == PrefixLen(ms))
  }

  predicate Safe(ms: seq<Message>) {
    forall k: nat :: k < |ms| ==> !Trap(ms, k)
  }

  /** On any transcript the messages after the boundary, up to the place asked for, are tool
      results; and the boundary is on one itself only in a trap. Elsewhere it is the last
      place not after the one asked for that is no tool result. */
  lemma {:induction false} BoundaryIsMaximal(ms: seq<Message>, config: Config)
    requires ShouldCompact(ms, config)
    ensures var keep, raw := KeepFrom(ms, config), RawKeepFrom(ms, config);
            && PrefixLen(ms) <= keep <= raw
            && (forall i :: keep < i <= raw ==> i < |ms| && StartsWithResult(ms[i]))
            && (keep < |ms| ==> (StartsWithResult(ms[keep]) <==> Trap(ms, keep)))
  {
    var prefix, raw := PrefixLen(ms), RawKeepFrom(ms, config);
    RawIsAfterSummary(ms, config);
    WalkBackBounds(ms, prefix, raw);
    WalkStops(ms, prefix, raw);
    WalkEnds(ms, prefix, raw);
  }

  lemma {:induction false} WalkEnds(ms: seq<Message>, prefix: nat, raw: nat)
    requires prefix < raw <= |ms|
    ensures var keep := WalkBack(ms, prefix, raw);
            keep < |ms| && StartsWithResult(ms[keep]) ==>
              keep + 1 < |ms| && StartsWithResult(ms[keep + 1]) && (HasToolUse(ms[keep]) || keep == prefix)
  {
    WalkBackBounds(ms, prefix, raw);
    WalkStops(ms, prefix, raw);
  }

  /** A tail that does not start with a tool result is paired by itself, also behind a
      message that is none. */
  lemma {:induction false} TailIsPaired(ms: seq<Message>, keep: nat, front: Message)
    requires Paired(ms) && keep <= |ms| && (keep < |ms| ==> !StartsWithResult(ms[keep]))
    requires !StartsWithResult(front)
    ensures Paired([front] + ms[keep..])
  {
    var all := [front] + ms[keep..];
    forall i: nat | i < |all| && StartsWithResult(all[i]) ensures Answered(all, i) {
      assert all[i] == ms[i - 1 + keep];
      TailAnswered(ms, keep, front, i - 1 + keep);
    }
  }

  lemma {:induction false} TailAnswered(ms: seq<Message>, keep: nat, front: Message, i: nat)
    requires keep < |ms| && !StartsWithResult(ms[keep])
    requires keep <= i < |ms| && Answered(ms, i)
    ensures Answered([front] + ms[keep..], i - keep + 1)
  {
    var j: nat :| Answers(ms, i, j);
    assert keep <= j;
    AnswersShift(ms, keep, i, j);
    AnswersExtend(ms[keep..], [front], i - keep, j - keep);
  }

  /** A tail that starts with a tool result has lost its tool use. */
  lemma {:induction false} TailIsParted(ms: seq<Message>, keep: nat, front: Message)
    requires keep < |ms| && StartsWithResult(ms[keep]) && !HasToolUse(front)
    ensures !Paired([front] + ms[keep..])
  {
    var all := [front] + ms[keep..];
    assert all[1] == ms[keep];
    forall j: nat ensures !Answers(all, 1, j) {
      assert j == 0 ==> all[j] == front;
    }
  }

  /** A compaction keeps a paired transcript paired exactly when its boundary is not in a
      trap. */
  lemma {:induction false} CompactKeepsPaired(session: Session, config: Config, w: Wording)
    requires Paired(session.messages)
    ensures Paired(Compacted(session, config, w).session.messages) <==>
            (ShouldCompact(session.messages, config) ==> !Trap(session.messages, KeepFrom(session.messages, config)))
  {
    var ms := session.messages;
    if ShouldCompact(ms, config) {
      var keep := KeepFromBounded(ms, config);
      var front := Compacted(session, config, w).session.messages[0];
      BoundaryIsMaximal(ms, config);
      if keep < |ms| && StartsWithResult(ms[keep]) {
        TailIsParted(ms, keep, front);
      } else {
        TailIsPaired(ms, keep, front);
      }
    }
  }

  /** So every compaction of a paired transcript keeps it paired exactly when it has no
      trap. */
  lemma {:induction false} AlwaysKeepsPaired(session: Session, w: Wording)
    requires Paired(session.messages)
    ensures (forall config :: Paired(Compacted(session, config, w).session.messages)) <==> Safe(session.messages)
  {
    var ms := session.messages;
    forall config | Safe(ms) ensures Paired(Compacted(session, config, w).session.messages) {
      CompactKeepsPaired(session, config, w);
    }
    if k: nat :| k < |ms| && Trap(ms, k) {
      var config := Config(|ms| - (k + 1), 0);
      TrapIsMet(ms, k, config);
      CompactKeepsPaired(session, config, w);
    }
  }

  lemma {:induction false} TrapIsMet(ms: seq<Message>, k: nat, config: Config)
    requires Trap(ms, k) && config == Config(|ms| - (k + 1), 0)
    ensures ShouldCompact(ms, config) && KeepFrom(ms, config) == k
  {
    var prefix := PrefixLen(ms);
    WalkMeetsTrap(ms, prefix, k);
    EnoughToCompact(ms, config);
    assert RawKeepFrom(ms, config) == k + 1;
  }

  lemma {:induction false} EnoughToCompact(ms: seq<Message>, config: Config)
    requires PrefixLen(ms) + config.preserveRecent < |ms| && config.maxTokens == 0
    ensures ShouldCompact(ms, config)
  {
  }

  lemma {:induction false} WalkMeetsTrap(ms: seq<Message>, prefix: nat, k: nat)
    requires prefix <= k && k + 1 < |ms| && StartsWithResult(ms[k + 1])
    requires HasToolUse(ms[k]) || k == prefix
    ensures WalkBack(ms, prefix, k + 1) == k
  {
    assert WalkBack(ms, prefix, prefix) == prefix;
  }

  /** Sound messages set no trap: the first result after a summary would be answered by it. */
  lemma {:induction false} SoundIsSafe(ms: seq<Message>)
    requires Paired(ms) && AllSound(ms)
    ensures Safe(ms)
  {
    forall k: nat | k < |ms| && StartsWithResult(ms[k]) ensures !Trap(ms, k) {
      NotAfterSummary(ms, k);
      assert ms[k] in ms;
    }
  }

  lemma {:induction false} NotAfterSummary(ms: seq<Message>, k: nat)
    requires k < |ms| && Answered(ms, k) && AllSound(ms)
    ensures k != PrefixLen(ms)
  {
    var j: nat :| Answers(ms, k, j);
    if j == 0 {
      assert Sound(ms[0]) by { assert ms[0] in ms; }
      SoundUseIsNoSummary(ms, ms[k].blocks[0].toolUseId);
    }
  }

  lemma {:induction false} SoundUseIsNoSummary(ms: seq<Message>, id: string)
    requires ms != [] && Uses(ms[0], id) && Sound(ms[0])
    ensures PrefixLen(ms) == 0
  {
  }

  /** A summary that also holds a tool use, and two results of it: the compaction removes
      the summary and keeps the results. */
  lemma {:induction false} SummaryPartsPair(use: Block, a: Block, b: Block, w: Wording)
    requires use.ToolUse? && a.ToolResult? && b.ToolResult? && a.toolUseId == use.id == b.toolUseId
    ensures var ms := [Message(System, [Plain(PREAMBLE), use]), Message(Tool, [a]), Message(Tool, [b])];
            Paired(ms) && !Paired(Compacted(Session(ms, None), Config(1, 0), w).session.messages)
  {
    var ms := [Message(System, [Plain(PREAMBLE), use]), Message(Tool, [a]), Message(Tool, [b])];
    SummaryRecognised([Plain(PREAMBLE), use]);
    assert ms[0].blocks[1] == use;
    assert Answers(ms, 1, 0) && Answers(ms, 2, 0);
    assert Trap(ms, 1);
    TrapIsMet(ms, 1, Config(1, 0));
    CompactKeepsPaired(Session(ms, None), Config(1, 0), w);
  }

  lemma {:induction false} SummaryRecognised(blocks: seq<Block>)
    requires blocks != [] && blocks[0] == Plain(PREAMBLE)
    ensures ExistingSummary(Message(System, blocks)).Some?
  {
    TrimKeepsHead(PREAMBLE);
  }

  // ---------- Runs ----------

  datatype Step = Push(message: Message) | Compact(config: Config)

  function Apply(session: Session, step: Step, w: Wording): Session {
    match step
    case Push(m) => session.(messages := session.messages + [m])
    case Compact(config) => Compacted(session, config, w).session
  }

  function Run(session: Session, steps: seq<Step>, w: Wording): Session
    decreases |steps|
  {
    if steps == [] then session else Run(Apply(session, steps[0], w), steps[1..], w)
  }

  /** Every pushed message may follow the transcript it is pushed on and sets no trap there. */
  ghost predicate WellFormed(session: Session, steps: seq<Step>, w: Wording)
    decreases |steps|
  {
    steps == [] ||
    ((steps[0].Push? ==>
        MayFollow(session.messages, steps[0].message) && Safe(session.messages + [steps[0].message])) &&
     WellFormed(Apply(session, steps[0], w), steps[1..], w))
  }

  lemma {:induction false} CompactKeepsSafe(session: Session, config: Config, w: Wording)
    requires Safe(session.messages)
    ensures Safe(Compacted(session, config, w).session.messages)
  {
    var ms := session.messages;
    if ShouldCompact(ms, config) {
      var keep := KeepFromBounded(ms, config);
      BoundaryIsMaximal(ms, config);
      TailIsSafe(ms, keep, Compacted(session, config, w).session.messages[0]);
    }
  }

  lemma {:induction false} TailIsSafe(ms: seq<Message>, keep: nat, front: Message)
    requires Safe(ms) && PrefixLen(ms) <= keep <= |ms| && (keep < |ms| ==> !StartsWithResult(ms[keep]))
    requires !StartsWithResult(front)
    ensures Safe([front] + ms[keep..])
  {
    var all := [front] + ms[keep..];
    forall k: nat | k < |all| ensures !Trap(all, k) {
      if 0 < k < |all| - 1 {
        assert all[k] == ms[keep + (k - 1)] && all[k + 1] == ms[keep + k];
        TrapStays(ms, keep, front, all, k);
      }
    }
  }

  lemma {:induction false} TrapStays(ms: seq<Message>, keep: nat, front: Message, all: seq<Message>, k: nat)
    requires PrefixLen(ms) <= keep <= |ms| && (keep < |ms| ==> !StartsWithResult(ms[keep]))
    requires all == [front] + ms[keep..] && 0 < k < |all| - 1
    requires all[k] == ms[keep + (k - 1)] && all[k + 1] == ms[keep + k]
    ensures Trap(all, k) ==> Trap(ms, keep + (k - 1))
  {
  }

  /** No run of pushes that are answered and set no trap, and of any compactions, ever parts a
      tool result from its tool use. */
  lemma {:induction false} RunKeepsPaired(session: Session, steps: seq<Step>, w: Wording)
    requires Paired(session.messages) && Safe(session.messages) && WellFormed(session, steps, w)
    ensures Paired(Run(session, steps, w).messages) && Safe(Run(session, steps, w).messages)
    decreases |steps|
  {
    if steps != [] {
      match steps[0] {
        case Push(m) => PushKeepsPaired(session.messages, m);
        case Compact(config) =>
          CompactKeepsPaired(session, config, w);
          CompactKeepsSafe(session, config, w);
      }
      RunKeepsPaired(Apply(session, steps[0], w), steps[1..], w);
    }
  }

  /** Every pushed message is sound and may follow the transcript it is pushed on. */
  ghost predicate SoundPushes(session: Session, steps: seq<Step>, w: Wording)
    decreases |steps|
  {
    steps == [] ||
    ((steps[0].Push? ==> Sound(steps[0].message) && MayFollow(session.messages, steps[0].message)) &&
     SoundPushes(Apply(session, steps[0], w), steps[1..], w))
  }

  lemma {:induction false} CompactKeepsSound(session: Session, config: Config, w: Wording)
    requires AllSound(session.messages)
    ensures AllSound(Compacted(session, config, w).session.messages)
  {
    var ms := session.messages;
    if ShouldCompact(ms, config) {
      var keep := KeepFromBounded(ms, config);
      var after := Compacted(session, config, w).session.messages;
      forall m | m in after ensures Sound(m) {
        assert m == after[0] || m in ms[keep..];
      }
    }
  }

  /** Sound messages that are answered set no trap in any run. */
  lemma {:induction false} SoundRunIsWellFormed(session: Session, steps: seq<Step>, w: Wording)
    requires Paired(session.messages) && AllSound(session.messages) && SoundPushes(session, steps, w)
    ensures WellFormed(session, steps, w)
    decreases |steps|
  {
    if steps != [] {
      SoundIsSafe(session.messages);
      match steps[0] {
        case Push(m) =>
          PushKeepsPaired(session.messages, m);
          SoundIsSafe(session.messages + [m]);
        case Compact(config) =>
          CompactKeepsPaired(session, config, w);
          CompactKeepsSound(session, config, w);
      }
      SoundRunIsWellFormed(Apply(session, steps[0], w), steps[1..], w);
    }
  }

  // ---------- What is removed ----------

  /** From the message after `prefix` on, up to the message `k`, there are tool results only,
      and no tool use before `k`. */
  predicate OnlyResults(ms: seq<Message>, prefix: nat, k: nat) {
    && k < |ms|
    && (forall i :: prefix < i <= k ==> StartsWithResult(ms[i]))
    && (forall i :: prefix < i < k ==> !HasToolUse(ms[i]))
  }

  /** Walking back from `k` goes all the way to the summary exactly when it meets tool
      results only, and no tool use before the end. */
  lemma {:induction false} WalkReachesSummary(ms: seq<Message>, prefix: nat, k: nat)
    requires prefix < k <= |ms|
    ensures WalkBack(ms, prefix, k) == prefix <==> OnlyResults(ms, prefix, k)
    decreases k
  {
    if k < |ms| && StartsWithResult(ms[k]) && !HasToolUse(ms[k - 1]) && prefix < k - 1 {
      WalkReachesSummary(ms, prefix, k - 1);
    }
  }

  /** A compaction removes nothing exactly when every message from the second after the old
      summary up to the boundary asked for is a tool result, and none before that boundary
      holds a tool use: the walk back then reaches the summary. */
  lemma {:induction false} RemovesNothing(session: Session, config: Config, w: Wording)
    requires ShouldCompact(session.messages, config)
    ensures var ms := session.messages;
            Compacted(session, config, w).removed == 0 <==> OnlyResults(ms, PrefixLen(ms), RawKeepFrom(ms, config))
  {
    var ms := session.messages;
    var keep := KeepFromBounded(ms, config);
    RawIsAfterSummary(ms, config);
    WalkReachesSummary(ms, PrefixLen(ms), RawKeepFrom(ms, config));
  }

  /** On a sound transcript tool results are no tool uses. */
  lemma {:induction false} RemovesNothingSound(session: Session, config: Config, w: Wording)
    requires AllSound(session.messages) && ShouldCompact(session.messages, config)
    ensures var ms := session.messages;
            var prefix, raw := PrefixLen(ms), RawKeepFrom(ms, config);
            Compacted(session, config, w).removed == 0 <==>
              raw < |ms| && forall i :: prefix < i <= raw ==> StartsWithResult(ms[i])
  {
    RemovesNothing(session, config, w);
    RawIsAfterSummary(session.messages, config);
    ResultsAreNoUses(session.messages, PrefixLen(session.messages), RawKeepFrom(session.messages, config));
  }

  lemma {:induction false} ResultsAreNoUses(ms: seq<Message>, prefix: nat, k: nat)
    requires AllSound(ms) && prefix < k
    ensures OnlyResults(ms, prefix, k) <==> k < |ms| && forall i :: prefix < i <= k ==> StartsWithResult(ms[i])
  {
    forall i | 0 <= i < |ms| && StartsWithResult(ms[i]) ensures !HasToolUse(ms[i]) {
      assert ms[i] in ms;
    }
  }

  /** One assistant turn with two tool uses and their two results: keeping the last message
      walks back to the turn itself, and the compaction only adds a summary. */
  lemma {:induction false} ToolTurnIsKept(use: Block, a: Block, b: Block, w: Wording)
    requires use.ToolUse? && a.ToolResult? && b.ToolResult?
    ensures var ms := [Message(Assistant, [use]), Message(Tool, [a]), Message(Tool, [b])];
            var config := Config(1, 0);
            var r := Compacted(Session(ms, None), config, w);
            && ShouldCompact(ms, config)
            && r.removed == 0 && r.session.messages[1..] == ms
  {
    var ms := [Message(Assistant, [use]), Message(Tool, [a]), Message(Tool, [b])];
    assert ExistingSummary(ms[0]) == None;
    assert StartsWithResult(ms[1]) && StartsWithResult(ms[2]) && !HasToolUse(ms[1]);
    ResultsAreKept(ms, w);
  }

  lemma {:induction false} ResultsAreKept(ms: seq<Message>, w: Wording)
    requires |ms| == 3 && PrefixLen(ms) == 0
    requires StartsWithResult(ms[1]) && StartsWithResult(ms[2]) && !HasToolUse(ms[1])
    ensures var config := Config(1, 0);
            var r := Compacted(Session(ms, None), config, w);
            ShouldCompact(ms, config) && r.removed == 0 && r.session.messages[1..] == ms
  {
    var config := Config(1, 0);
    assert ms[0..] == ms && RawKeepFrom(ms, config) == 2;
    assert OnlyResults(ms, 0, 2);
    RemovesNothing(Session(ms, None), config, w);
    Accounting(Session(ms, None), config, w);
  }

  lemma {:induction false} RawIsAfterSummary(ms: seq<Message>, config: Config)
    requires ShouldCompact(ms, config)
    ensures PrefixLen(ms) < RawKeepFrom(ms, config)
  {
  }

  /** At least the last `preserveRecent` messages are kept, and more of them exactly when the
      first of these is a tool result. */
  lemma {:induction false} KeepsRecent(session: Session, config: Config, w: Wording)
    requires ShouldCompact(session.messages, config)
    ensures var ms := session.messages;
            var kept := Compacted(session, config, w).session.messages[1..];
            && config.preserveRecent <= |kept| <= |ms| && kept == ms[|ms| - |kept|..]
            && (|kept| > config.preserveRecent <==>
                config.preserveRecent > 0 && StartsWithResult(ms[|ms| - config.preserveRecent]))
  {
    var ms := session.messages;
    Accounting(session, config, w);
    RawIsAfterSummary(ms, config);
    WalkBackMoves(ms, PrefixLen(ms), RawKeepFrom(ms, config));
    RawIsRecent(ms, config);
  }

  /** The walk goes on from a message whose first block is a tool result, and only from such a
      one; and no further than the message before it if that holds a tool use anywhere. */
  lemma {:induction false} WalkGoesOn(ms: seq<Message>, prefix: nat, k: nat, before: seq<Block>)
    requires prefix < k < |ms| && before == ms[k - 1].blocks
    ensures ms[k].blocks == [] || !ms[k].blocks[0].ToolResult? ==> WalkBack(ms, prefix, k) == k
    ensures ms[k].blocks != [] && ms[k].blocks[0].ToolResult? ==>
              WalkBack(ms, prefix, k) ==
              if exists i :: 0 <= i < |before| && before[i].ToolUse? then k - 1
              else WalkBack(ms, prefix, k - 1)
  {
    if i :| 0 <= i < |before| && before[i].ToolUse? {
      assert before[i] in before;
    }
  }

  lemma {:induction false} RawIsRecent(ms: seq<Message>, config: Config)
    requires ShouldCompact(ms, config)
    ensures |ms| - RawKeepFrom(ms, config) == config.preserveRecent
  {
  }

  lemma {:induction false} WalkBackMoves(ms: seq<Message>, prefix: nat, k: nat)
    requires prefix < k <= |ms|
    ensures WalkBack(ms, prefix, k) < k <==> k < |ms| && StartsWithResult(ms[k])
  {
    WalkBackBounds(ms, prefix, k - 1);
  }

  /** A transcript is compacted when, not counting a recognised summary at its front, it has
      more messages than are to be preserved and at least the tokens of the threshold. */
  lemma {:induction false} WhenToCompact(first: Message, rest: seq<Message>, config: Config)
    ensures !ShouldCompact([], config)
    ensures ExistingSummary(first).Some? ==>
              (ShouldCompact([first] + rest, config) <==>
               |rest| > config.preserveRecent && Tokens(rest) >= config.maxTokens)
    ensures ExistingSummary(first).None? ==>
              (ShouldCompact([first] + rest, config) <==>
               |rest| + 1 > config.preserveRecent && Tokens([first]) + Tokens(rest) >= config.maxTokens)
  {
    var ms := [first] + rest;
    TokensAdd([first], rest);
    assert ms[1..] == rest && ms[0..] == ms;
  }

  // ---------- The token estimate ----------

  lemma {:induction false} TokensAdd(a: seq<Message>, b: seq<Message>)
    ensures Tokens(a + b) == Tokens(a) + Tokens(b)
  {
    if a == [] {
      assert a + b == b;
    } else {
      assert (a + b)[1..] == a[1..] + b;
      TokensAdd(a[1..], b);
    }
  }

  lemma {:induction false} BlocksAdd(a: seq<Block>, b: seq<Block>)
    ensures BlocksTokens(a + b) == BlocksTokens(a) + BlocksTokens(b)
  {
    if a == [] {
      assert a + b == b;
    } else {
      assert (a + b)[1..] == a[1..] + b;
      BlocksAdd(a[1..], b);
    }
  }

  /** The estimate is additive over messages and over blocks; and a block of `n` bytes that is
      text, a tool use or a tool result counts for one token more than `n` holds fours. */
  lemma {:induction false} TokensExactly(a: seq<Message>, b: seq<Message>, role: Role, blocks: seq<Block>, block: Block)
    ensures Tokens([]) == 0 && Tokens(a + b) == Tokens(a) + Tokens(b)
    ensures Tokens([Message(role, [])]) == 0
    ensures Tokens([Message(role, blocks + [block])]) ==
            Tokens([Message(role, blocks)]) + Tokens([Message(role, [block])])
    ensures var t := Tokens([Message(role, [block])]);
            match block
            case Plain(text) => Fours(|Encode(text)|, t - 1)
            case ToolUse(_, name, input) => Fours(|Encode(name)| + |Encode(input)|, t - 1)
            case ToolResult(_, name, output, _) => Fours(|Encode(name)| + |Encode(output)|, t - 1)
            case Thinking(text, None) => Fours(|Encode(text)|, t)
            case Thinking(text, Some(signature)) =>
              exists u, v :: Fours(|Encode(text)|, u) && Fours(|Encode(signature)|, v) && t == u + v + 1
  {
    TokensAdd(a, b);
    BlocksAdd(blocks, [block]);
    OneBlock(role, block);
    assert [Message(role, blocks)][1..] == [] && [Message(role, blocks + [block])][1..] == [];
    if block.Thinking? && block.signature.Some? {
      assert Fours(|Encode(block.thinking)|, |Encode(block.thinking)| / 4);
      assert Fours(|Encode(block.signature.value)|, |Encode(block.signature.value)| / 4);
    }
  }

  /** `n` holds `k` fours. */
  predicate Fours(n: int, k: int) {
    4 * k <= n < 4 * k + 4
  }

  lemma {:induction false} OneBlock(role: Role, block: Block)
    ensures Tokens([Message(role, [block])]) == BlockTokens(block)
  {
    assert [block][1..] == [] && [Message(role, [block])][1..] == [];
    assert BlocksTokens([block]) == BlockTokens(block) + BlocksTokens([]);
    assert Tokens([Message(role, [block])]) == BlocksTokens([block]) + Tokens([]);
  }

  // ---------- Which message is a summary ----------

  /** The first text to be seen is at `i`. */
  predicate FirstVisible(blocks: seq<Block>, i: int) {
    && 0 <= i < |blocks| && Visible(blocks[i]) && forall j :: 0 <= j < i ==> !Visible(blocks[j])
  }

  predicate Visible(b: Block) {
    b.Plain? && Trim(b.text) != ""
  }

  lemma {:induction false} FirstTextIs(blocks: seq<Block>, i: int)
    requires FirstVisible(blocks, i)
    ensures FirstText(blocks) == Some(blocks[i].text)
  {
    if i > 0 {
      assert !Visible(blocks[0]);
      forall j | 0 <= j < i - 1 ensures !Visible(blocks[1..][j]) {
        assert blocks[1..][j] == blocks[j + 1];
      }
      FirstTextIs(blocks[1..], i - 1);
    }
  }

  lemma {:induction false} FirstTextAt(blocks: seq<Block>) returns (i: int)
    requires FirstText(blocks).Some?
    ensures FirstVisible(blocks, i)
  {
    if Visible(blocks[0]) {
      i := 0;
    } else {
      i := FirstTextAt(blocks[1..]);
      i := i + 1;
      forall j | 0 <= j < i ensures !Visible(blocks[j]) {
        if j > 0 { assert blocks[j] == blocks[1..][j - 1]; }
      }
    }
  }

  /** The next compaction takes a message for a summary exactly if it is a system message whose
      first text to be seen begins with the preamble. */
  lemma {:induction false} RecognisedExactly(m: Message)
    ensures ExistingSummary(m).Some? <==>
            m.role == System && exists i :: FirstVisible(m.blocks, i) && PREAMBLE <= m.blocks[i].text
  {
    if FirstText(m.blocks).Some? {
      var k := FirstTextAt(m.blocks);
      FirstTextIs(m.blocks, k);
      forall i | FirstVisible(m.blocks, i) ensures i == k {
        assert !(i < k) && !(k < i);
      }
    } else {
      forall i ensures !FirstVisible(m.blocks, i) {
        if FirstVisible(m.blocks, i) { FirstTextIs(m.blocks, i); }
      }
    }
  }

  /** A compaction makes a transcript shorter exactly when it removes two messages, or
      one besides the old summary; the first compaction that removes none makes it longer. */
  lemma {:induction false} Shrinks(session: Session, config: Config, w: Wording)
    requires ShouldCompact(session.messages, config)
    ensures var ms, r := session.messages, Compacted(session, config, w);
            && |r.session.messages| + PrefixLen(ms) + r.removed == |ms| + 1
            && (|r.session.messages| < |ms| <==> PrefixLen(ms) + r.removed >= 2)
            && (|r.session.messages| > |ms| <==> PrefixLen(ms) == 0 && r.removed == 0)
  {
    var keep := KeepFromBounded(session.messages, config);
  }
}
