/** Accounting over whole runs of pushes and compactions: no message is lost uncounted, and
    there is never more than one recognised summary. */
module CompactAccounting {
  import opened Text
  import opened Compact
  import opened CompactRuns
  import opened CompactSummary

  /** The messages of a transcript besides a recognised summary at its front. */
  function Real(ms: seq<Message>): nat {
    |ms| - PrefixLen(ms)
  }

  /** A push that makes its message the recognised summary: one onto an empty transcript. */
  predicate PushesSummary(session: Session, step: Step) {
    step.Push? && session.messages == [] && ExistingSummary(step.message).Some?
  }

  datatype Tally = Tally(pushed: nat, removed: nat)

  /** What one step adds to the transcript and what it counts as removed. */
  function OneStep(session: Session, step: Step, w: Wording): Tally {
    match step
    case Push(_) => Tally(if PushesSummary(session, step) then 0 else 1, 0)
    case Compact(config) => Tally(0, Compacted(session, config, w).removed)
  }

  function TallyOf(session: Session, steps: seq<Step>, w: Wording): Tally
    decreases |steps|
  {
    if steps == [] then Tally(0, 0)
    else
      var one := OneStep(session, steps[0], w);
      var rest := TallyOf(Apply(session, steps[0], w), steps[1..], w);
      Tally(one.pushed + rest.pushed, one.removed + rest.removed)
  }

  lemma {:induction false} PushCounts(session: Session, m: Message)
    ensures Real(session.messages + [m]) ==
            Real(session.messages) + if PushesSummary(session, Push(m)) then 0 else 1
  {
    var ms := session.messages;
    if ms == [] {
      assert ms + [m] == [m];
    } else {
      assert (ms + [m])[0] == ms[0];
    }
  }

  lemma {:induction false} CompactionCounts(session: Session, config: Config, w: Wording)
    ensures var r := Compacted(session, config, w);
            Real(r.session.messages) + r.removed == Real(session.messages)
  {
    if ShouldCompact(session.messages, config) {
      Accounting(session, config, w);
      CompactedIsRecognised(session, config, w);
    }
  }

  /** Over any run: the messages there are now besides the summary, and all that compactions
      counted as removed, are the messages there were and those pushed. */
  lemma {:induction false} RunAccounting(session: Session, steps: seq<Step>, w: Wording)
    ensures var t := TallyOf(session, steps, w);
            Real(Run(session, steps, w).messages) + t.removed == Real(session.messages) + t.pushed
    decreases |steps|
  {
    if steps != [] {
      match steps[0] {
        case Push(m) => PushCounts(session, m);
        case Compact(config) => CompactionCounts(session, config, w);
      }
      RunAccounting(Apply(session, steps[0], w), steps[1..], w);
    }
  }

  // ---------- One summary ----------

  /** No message after the first is one that the next compaction would take for a summary. */
  predicate OneSummary(ms: seq<Message>) {
    forall i :: 0 < i < |ms| ==> ExistingSummary(ms[i]) == None
  }

  /** Nothing that reads as a summary is pushed onto a transcript with messages. */
  predicate NoSummaryPushed(session: Session, steps: seq<Step>, w: Wording)
    decreases |steps|
  {
    steps != [] ==>
      && (steps[0].Push? && session.messages != [] ==> ExistingSummary(steps[0].message) == None)
      && NoSummaryPushed(Apply(session, steps[0], w), steps[1..], w)
  }

  lemma {:induction false} CompactionLeavesOne(session: Session, config: Config, w: Wording)
    requires OneSummary(session.messages)
    ensures OneSummary(Compacted(session, config, w).session.messages)
  {
    var ms := session.messages;
    if ShouldCompact(ms, config) {
      var keep := KeepFromBounded(ms, config);
      var after := Compacted(session, config, w).session.messages;
      Accounting(session, config, w);
      forall i | 0 < i < |after| ensures ExistingSummary(after[i]) == None {
        assert after[i] == after[1..][i - 1] == ms[keep + (i - 1)];
        FrontIsNoSummary(ms, keep + (i - 1));
      }
    }
  }

  /** What is kept never includes the old summary. */
  lemma {:induction false} FrontIsNoSummary(ms: seq<Message>, i: nat)
    requires OneSummary(ms) && PrefixLen(ms) <= i < |ms|
    ensures ExistingSummary(ms[i]) == None
  {
  }

  /** However often a session is compacted, it holds at most one recognised summary, and that
      one comes first: old summaries are merged, never stacked. */
  lemma {:induction false} RunLeavesOneSummary(session: Session, steps: seq<Step>, w: Wording)
    requires OneSummary(session.messages) && NoSummaryPushed(session, steps, w)
    ensures OneSummary(Run(session, steps, w).messages)
    decreases |steps|
  {
    if steps != [] {
      match steps[0] {
        case Push(m) =>
        case Compact(config) => CompactionLeavesOne(session, config, w);
      }
      RunLeavesOneSummary(Apply(session, steps[0], w), steps[1..], w);
    }
  }
}
