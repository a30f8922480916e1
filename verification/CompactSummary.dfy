/** The summary text of a compacted session: how it is formatted, and that the next
    compaction recognises the message that carries it. */
module CompactSummary {
  import opened Text
  import opened Compact
  import opened CompactRuns

  // ---------- Formatting ----------

  function OpenTag(tag: string): string {
    "<" + tag + ">"
  }

  function CloseTag(tag: string): string {
    "</" + tag + ">"
  }

  /** `strip_tag_block`: the first opening and the first closing tag, wherever they are. */
  function StripTagBlock(content: string, tag: string): string {
    match (Find(content, OpenTag(tag)), Find(content, CloseTag(tag)))
    case (Some(i), Some(j)) => content[..i] + content[j + |CloseTag(tag)|..]
    case _ => content
  }

  /** `extract_tag_block`: the first closing tag after the first opening one. */
  function ExtractTagBlock(content: string, tag: string): Option<string> {
    match Find(content, OpenTag(tag))
    case None => None
    case Some(i) =>
      var rest := content[i + |OpenTag(tag)|..];
      match Find(rest, CloseTag(tag))
      case None => None
      case Some(j) => Some(rest[..j])
  }

  /** `str::replace`: every occurrence, from the left, none overlapping. */
  function ReplaceAll(s: string, p: string, with: string): string
    requires p != ""
    decreases |s|
  {
    match Find(s, p)
    case None => s
    case Some(i) => s[..i] + with + ReplaceAll(s[i + |p|..], p, with)
  }

  predicate IsBlank(line: string) {
    Trim(line) == ""
  }

  /** The lines that are kept when a blank one follows a blank one; `lastBlank` tells of
      the line before. */
  function Collapse(lines: seq<string>, lastBlank: bool): seq<string> {
    if lines == [] then []
    else if IsBlank(lines[0]) && lastBlank then Collapse(lines[1..], true)
    else [lines[0]] + Collapse(lines[1..], IsBlank(lines[0]))
  }

  function Unlines(lines: seq<string>): string {
    if lines == [] then "" else lines[0] + "\n" + Unlines(lines[1..])
  }

  /** `collapse_blank_lines`, with its flag and its growing text. */
  method CollapseBlankLines(content: string) returns (result: string)
    ensures result == Unlines(Collapse(Lines(content), false))
  {
    var lines := Lines(content);
    result := "";
    var lastBlank := false;
    for i := 0 to |lines|
      invariant result + Unlines(Collapse(lines[i..], lastBlank)) == Unlines(Collapse(lines, false))
    {
      var isBlank := IsBlank(lines[i]);
      assert lines[i..][1..] == lines[i + 1..];
      if isBlank && lastBlank {
        continue;
      }
      ghost var rest := Unlines(Collapse(lines[i + 1..], isBlank));
      CollapseKeeps(lines[i..], lastBlank);
      Assoc(result, lines[i] + "\n", rest);
      result := result + lines[i];
      result := result + "\n";
      lastBlank := isBlank;
    }
    assert lines[|lines|..] == [];
  }

  lemma {:induction false} CollapseKeeps(lines: seq<string>, lastBlank: bool)
    requires lines != [] && !(IsBlank(lines[0]) && lastBlank)
    ensures Unlines(Collapse(lines, lastBlank)) == lines[0] + "\n" + Unlines(Collapse(lines[1..], IsBlank(lines[0])))
  {
    assert Collapse(lines, lastBlank)[1..] == Collapse(lines[1..], IsBlank(lines[0]));
  }

  predicate NoTwoBlank(lines: seq<string>) {
    forall i :: 0 <= i < |lines| - 1 ==> !(IsBlank(lines[i]) && IsBlank(lines[i + 1]))
  }

  function NonBlank(lines: seq<string>): seq<string> {
    if lines == [] then []
    else (if IsBlank(lines[0]) then [] else [lines[0]]) + NonBlank(lines[1..])
  }

  /** Collapsing drops blank lines only, leaves no two of them together, and changes
      nothing where that is so already. */
  lemma {:induction false} CollapseLeavesNoTwoBlank(lines: seq<string>, lastBlank: bool)
    ensures var r := Collapse(lines, lastBlank);
            && NonBlank(r) == NonBlank(lines)
            && NoTwoBlank(r)
            && (lastBlank && r != [] ==> !IsBlank(r[0]))
            && (NoTwoBlank(lines) && (lastBlank && lines != [] ==> !IsBlank(lines[0])) ==> r == lines)
  {
    if lines != [] {
      var blank := IsBlank(lines[0]);
      var rest := Collapse(lines[1..], blank);
      CollapseLeavesNoTwoBlank(lines[1..], blank);
      if !(blank && lastBlank) {
        var r := [lines[0]] + rest;
        assert r[1..] == rest;
        assert forall i :: 0 < i < |r| ==> r[i] == rest[i - 1];
        if NoTwoBlank(lines) { TailHasNoTwoBlank(lines); }
      }
    }
  }

  lemma {:induction false} TailHasNoTwoBlank(lines: seq<string>)
    requires lines != [] && NoTwoBlank(lines)
    ensures NoTwoBlank(lines[1..])
    ensures IsBlank(lines[0]) && lines[1..] != [] ==> !IsBlank(lines[1..][0])
  {
    assert forall i :: 0 <= i < |lines| - 1 ==> lines[1..][i] == lines[i + 1];
    if |lines| > 1 { assert !(IsBlank(lines[0]) && IsBlank(lines[0 + 1])); }
  }

  /** `format_compact_summary`. */
  function FormatSummary(summary: string): string {
    var stripped := StripTagBlock(summary, "analysis");
    var formatted :=
      match ExtractTagBlock(stripped, "summary")
      case None => stripped
      case Some(content) =>
        ReplaceAll(stripped, "<summary>" + content + "</summary>", "Summary:\n" + Trim(content));
    Trim(Unlines(Collapse(Lines(formatted), false)))
  }

  // ---------- The markers ----------

  predicate IsLine(s: string) {
    s != "" && '\n' !in s
  }

  lemma {:induction false} MarkersAreLines()
    ensures IsLine(NOTE) && IsLine(RESUME)
  {
    PiecesOneTwo();
    PiecesThreeFour();
    PiecesFiveSix();
  }

  lemma {:induction false} PiecesOneTwo()
    ensures IsLine(RESUME_1) && IsLine(RESUME_2)
  {
  }

  lemma {:induction false} PiecesThreeFour()
    ensures IsLine(RESUME_3) && IsLine(RESUME_4)
  {
  }

  lemma {:induction false} PiecesFiveSix()
    ensures IsLine(RESUME_5) && IsLine(RESUME_6)
  {
  }

  /** A marker `breaks + note` is found right after a text that does not hold it and
      does not end in a line break. */
  lemma {:induction false} NoteFound(f: string, note: string, rest: string)
    requires IsTrimmed(f) && IsLine(note) && Find(f, "\n\n" + note) == None
    ensures Before(f + ("\n\n" + note + rest), "\n\n" + note) == f
  {
    var n := "\n\n" + note;
    var body := f + (n + rest);
    forall p | 0 <= p < |f| ensures !At(body, n, p) {
      NoStraddle(f, n, rest, note, p);
    }
    AtIsSlice(body, n, |f|);
    assert body[|f|..|f| + |n|] == n;
    FindIs(body, n, |f|);
    assert body[..|f|] == f;
  }

  lemma {:induction false} NoStraddle(f: string, n: string, rest: string, note: string, p: nat)
    requires p < |f| && IsLine(note) && n == "\n\n" + note
    requires !At(f, n, p)
    ensures !At(f + (n + rest), n, p)
  {
    var body := f + (n + rest);
    if p + |n| <= |f| {
      AtInPrefix(f, n + rest, n, p);
    } else {
      var d := |f| - p;
      var k := if d < 2 then 2 else d;
      NoBreakAt(note, k - 2);
      assert n[k] == note[k - 2];
      if At(body, n, p) {
        MatchesElement(body, n, p, k);
      }
    }
  }

  lemma {:induction false} NoBreakAt(line: string, k: nat)
    requires IsLine(line) && k < |line|
    ensures line[k] != '\n'
  {
    assert line[k] in line;
  }

  lemma {:induction false} MatchesElement<T>(s: seq<T>, p: seq<T>, i: nat, k: nat)
    requires At(s, p, i) && k < |p|
    ensures s[i + k] == p[k]
  {
    AtIsSlice(s, p, i);
    assert s[i..i + |p|][k] == s[i + k];
  }

  lemma {:induction false} ResumeFound(f: string, resume: string)
    requires IsLine(resume) && Find(f, "\n" + resume) == None
    ensures Before(f + ("\n" + resume), "\n" + resume) == f
  {
    var r := "\n" + resume;
    var body := f + r;
    forall p | 0 <= p < |f| ensures !At(body, r, p) {
      if p + |r| <= |f| {
        AtInPrefix(f, r, r, p);
      } else {
        NoBreakAt(resume, |f| - p - 1);
        if At(body, r, p) {
          MatchesElement(body, r, p, |f| - p);
        }
      }
    }
    AtIsSlice(body, r, |f|);
    assert body[|f|..|f| + |r|] == r;
    FindIs(body, r, |f|);
    assert body[..|f|] == f;
  }

  lemma {:induction false} NoteAbsent(f: string, note: string, resume: string)
    requires IsTrimmed(f) && IsLine(note) && IsLine(resume) && Find(f, "\n\n" + note) == None
    ensures Find(f + ("\n" + resume), "\n\n" + note) == None
  {
    var n, r := "\n\n" + note, "\n" + resume;
    var body := f + r;
    forall p: nat | p + |n| <= |body| ensures !At(body, n, p) {
      if p + |n| <= |f| {
        AtInPrefix(f, r, n, p);
      } else if p + 1 < |f| {
        NoBreakAt(note, |f| - p - 2);
        if At(body, n, p) { MatchesElement(body, n, p, |f| - p); }
      } else if p + 1 == |f| {
        if At(body, n, p) { MatchesElement(body, n, p, 0); }
      } else {
        NoBreakAt(resume, p - |f|);
        if At(body, n, p) { MatchesElement(body, n, p, 1); }
      }
    }
  }

  /** The text up to the note marker, when the summary does not hold that marker. */
  lemma {:induction false} BeforeNote(f: string, note: string, resume: string, suppress: bool, recent: bool)
    requires IsTrimmed(f) && IsLine(note) && IsLine(resume) && Find(f, "\n\n" + note) == None
    ensures Before(f + Closing(suppress, recent, note, resume), "\n\n" + note) ==
            if suppress && !recent then f + ("\n" + resume) else f
  {
    if recent {
      NoteFound(f, note, if suppress then "\n" + resume else "");
    } else if suppress {
      NoteAbsent(f, note, resume);
      assert "" + ("\n" + resume) == "\n" + resume;
    } else {
      assert f + ("" + "") == f;
    }
  }

  lemma {:induction false} BeforeShortens(s: string, marker: string)
    ensures |Before(s, marker)| <= |s|
  {
  }

  /** A summary is read back from its continuation text exactly when it holds neither
      marker, whichever of the two closing sentences follow it. */
  lemma {:induction false} ExtractionExact(f: string, note: string, resume: string, suppress: bool, recent: bool)
    requires IsTrimmed(f) && IsLine(note) && IsLine(resume)
    ensures SummaryBetween(f + Closing(suppress, recent, note, resume), note, resume) == f <==>
            Find(f, "\n\n" + note) == None && Find(f, "\n" + resume) == None
  {
    var n, r := "\n\n" + note, "\n" + resume;
    var body := f + Closing(suppress, recent, note, resume);
    TrimOfTrimmed(f);
    if Find(f, n).Some? {
      FindGrows(f, Closing(suppress, recent, note, resume), n);
      Shortened(Before(body, n), r, f);
    } else {
      BeforeNote(f, note, resume, suppress, recent);
      var rest := if suppress && !recent then r else "";
      assert f + "" == f;
      if Find(f, r).Some? {
        FindGrows(f, rest, r);
        TrimShortens(Before(f + rest, r));
      } else if rest != "" {
        ResumeFound(f, resume);
      }
    }
  }

  lemma {:induction false} Shortened(s: string, marker: string, f: string)
    requires |s| < |f|
    ensures Trim(Before(s, marker)) != f
  {
    BeforeShortens(s, marker);
    TrimShortens(Before(s, marker));
  }

  // ---------- Recognition ----------

  lemma {:induction false} PreambleIsVisible(rest: string)
    ensures Trim(PREAMBLE + rest) != ""
  {
    var s := PREAMBLE + rest;
    assert PREAMBLE_1[0] == 'T';
    assert s[0] == PREAMBLE_1[0];
    TrimKeepsHead(s);
  }

  /** The message that a compaction puts first is recognised by the next one, whatever
      the summary says, and read as what stands between preamble and markers. */
  lemma {:induction false} SummaryIsRecognised(formatted: string, recent: bool)
    ensures ExistingSummary(SummaryMessage(formatted, recent))
         == Some(SummaryOf(formatted + Closing(true, recent, NOTE, RESUME)))
  {
    var body := formatted + Closing(true, recent, NOTE, RESUME);
    PreambleIsVisible(body);
    StripOwnPrefix(PREAMBLE, body);
  }

  lemma {:induction false} CompactedIsRecognised(session: Session, config: Config, w: Wording)
    requires ShouldCompact(session.messages, config)
    ensures PrefixLen(Compacted(session, config, w).session.messages) == 1
  {
    var ms := session.messages;
    var keep := KeepFromBounded(ms, config);
    SummaryIsRecognised(w.format(w.summarize(FirstSummary(ms), ms[PrefixLen(ms)..keep])), keep < |ms|);
  }

  /** The formatted summary survives into the next compaction exactly when it holds
      neither marker sentence after a line break. */
  lemma {:induction false} SummarySurvives(summary: string, recent: bool)
    ensures ExistingSummary(SummaryMessage(FormatSummary(summary), recent)) == Some(FormatSummary(summary)) <==>
            Find(FormatSummary(summary), "\n\n" + NOTE) == None && Find(FormatSummary(summary), "\n" + RESUME) == None
  {
    var f := FormatSummary(summary);
    FormattedIsTrimmed(summary);
    MarkersAreLines();
    SummaryIsRecognised(f, recent);
    ExtractionExact(f, NOTE, RESUME, true, recent);
  }

  /** The summary of what a compaction removes. */
  function SummaryText(ms: seq<Message>, config: Config, w: Wording): string
    requires ShouldCompact(ms, config)
  {
    var keep := KeepFromBounded(ms, config);
    w.summarize(FirstSummary(ms), ms[PrefixLen(ms)..keep])
  }

  /** What a compaction puts first and notes: one system message whose one text is the preamble,
      the formatted summary, the note if messages are kept, and the request to go on; and the
      summary itself, with one more compaction counted. */
  lemma {:induction false} CompactedMessage(session: Session, config: Config, w: Wording)
    requires ShouldCompact(session.messages, config)
    ensures var ms, r := session.messages, Compacted(session, config, w);
            var summary := SummaryText(ms, config, w);
            var recent := KeepFrom(ms, config) < |ms|;
            && r.session.messages != []
            && r.session.messages[0].role == System
            && r.session.messages[0].blocks ==
               [Plain(PREAMBLE + (w.format(summary) +
                                  ((if recent then "\n\n" + NOTE else "") + ("\n" + RESUME))))]
            && r.session.compaction.Some? && r.session.compaction.value.summary == summary
            && r.session.compaction.value.count ==
               (if session.compaction.None? then 1 else session.compaction.value.count + 1)
  {
    var keep := KeepFromBounded(session.messages, config);
  }

  /** With the formatting of the code, the next compaction reads back that formatted summary,
      exactly when it holds neither marker sentence after a line break. */
  lemma {:induction false} SummaryIsCarried(session: Session, config: Config, w: Wording)
    requires ShouldCompact(session.messages, config) && w.format == FormatSummary
    ensures var f := FormatSummary(SummaryText(session.messages, config, w));
            FirstSummary(Compacted(session, config, w).session.messages) == Some(f) <==>
              Find(f, "\n\n" + NOTE) == None && Find(f, "\n" + RESUME) == None
  {
    var ms := session.messages;
    var keep := KeepFromBounded(ms, config);
    var summary := SummaryText(ms, config, w);
    var first := Compacted(session, config, w).session.messages[0];
    CompactedMessage(session, config, w);
    SameText(first, summary, keep < |ms|);
    SummarySurvives(summary, keep < |ms|);
  }

  lemma {:induction false} SameText(m: Message, summary: string, recent: bool)
    requires m.role == System
    requires m.blocks == [Plain(PREAMBLE + (FormatSummary(summary) +
                                            ((if recent then "\n\n" + NOTE else "") + ("\n" + RESUME))))]
    ensures m == SummaryMessage(FormatSummary(summary), recent)
  {
  }

  lemma {:induction false} FormattedIsTrimmed(summary: string)
    ensures IsTrimmed(FormatSummary(summary))
  {
    var stripped := StripTagBlock(summary, "analysis");
    var formatted :=
      match ExtractTagBlock(stripped, "summary")
      case None => stripped
      case Some(content) =>
        ReplaceAll(stripped, "<summary>" + content + "</summary>", "Summary:\n" + Trim(content));
    TrimIsTrimmed(Unlines(Collapse(Lines(formatted), false)));
  }

  lemma {:induction false} NoTag(s: string, tag: string)
    requires '<' !in s
    ensures Find(s, OpenTag(tag)) == None && Find(s, CloseTag(tag)) == None
  {
    forall i | 0 <= i < |s| ensures !At(s, OpenTag(tag), i) && !At(s, CloseTag(tag), i) {
      AtIsSlice(s, OpenTag(tag), i);
      AtIsSlice(s, CloseTag(tag), i);
      assert s[i] in s;
      assert OpenTag(tag)[0] == '<' && CloseTag(tag)[0] == '<';
    }
  }

  lemma {:induction false} LinesOfTwo(n: string)
    requires IsLine(n)
    ensures Lines("a\n\n" + n) == ["a", "", n]
  {
    var s := "a\n\n" + n;
    assert s == "a" + (['\n'] + ("\n" + n)) && s[..1] == "a" && s[2..] == "\n" + n;
    FindAfterPrefix("a", '\n', "\n" + n);
    var t := "\n" + n;
    assert t == "" + (['\n'] + n) && t[..0] == "" && t[1..] == n;
    FindAfterPrefix("", '\n', n);
    FindNowhere(n, '\n');
    assert Lines(n) == [n];
    assert Lines(t) == [""] + [n];
  }

  lemma {:induction false} FormatKeeps(n: string)
    requires IsLine(n) && IsTrimmed(n) && '<' !in n
    ensures FormatSummary("a\n\n" + n) == "a\n\n" + n
  {
    var s := "a\n\n" + n;
    NoTag(s, "analysis");
    NoTag(s, "summary");
    LinesOfTwo(n);
    TrimOfTrimmed(n);
    TrimOfTrimmed("a");
    assert !IsBlank("a") && IsBlank("") && !IsBlank(n);
    CollapsedLines(n);
    TrimLastBreak(s);
  }

  lemma {:induction false} TrimLastBreak(s: string)
    requires s != "" && IsTrimmed(s)
    ensures Trim(s + "\n") == s
  {
    var t := s + "\n";
    TrimOfTrimmed(s);
    assert t[..|t| - 1] == s && TrimStart(t) == t;
  }

  lemma {:induction false} CollapsedLines(n: string)
    requires !IsBlank("a") && IsBlank("") && !IsBlank(n)
    ensures Unlines(Collapse(["a", "", n], false)) == "a\n\n" + n + "\n"
  {
    CollapseKeepsThree(n);
    ThreeUnlined(n);
  }

  lemma {:induction false} CollapseKeepsThree(n: string)
    requires !IsBlank("a") && IsBlank("") && !IsBlank(n)
    ensures Collapse(["a", "", n], false) == ["a", "", n]
  {
    assert [n][1..] == [] && ["", n][1..] == [n] && ["a", "", n][1..] == ["", n];
    assert Collapse([n], true) == [n];
    assert Collapse(["", n], false) == ["", n];
  }

  lemma {:induction false} ThreeUnlined(n: string)
    ensures Unlines(["a", "", n]) == "a\n\n" + n + "\n"
  {
    assert [n][1..] == [] && ["", n][1..] == [n] && ["a", "", n][1..] == ["", n];
    assert Unlines([n]) == n + "\n";
    assert Unlines(["", n]) == "\n" + n + "\n";
    assert Unlines(["a", "", n]) == "a\n" + ("\n" + n + "\n");
  }

  /** A summary that ends in the note sentence after a blank line loses it at the next
      compaction. */
  lemma {:induction false} NoteIsLost(recent: bool)
    ensures var summary := "a\n\n" + NOTE;
            && FormatSummary(summary) == summary
            && ExistingSummary(SummaryMessage(summary, recent)) != Some(summary)
  {
    MarkersAreLines();
    NoteIsPlain();
    FormatKeeps(NOTE);
    NoteInside(NOTE);
    SummarySurvives("a\n\n" + NOTE, recent);
  }

  lemma {:induction false} NoteIsPlain()
    ensures IsTrimmed(NOTE) && '<' !in NOTE
  {
  }

  lemma {:induction false} NoteInside(n: string)
    ensures Find("a\n\n" + n, "\n\n" + n).Some?
  {
    var s, marker := "a\n\n" + n, "\n\n" + n;
    assert s[1..1 + |marker|] == marker;
    AtIsSlice(s, marker, 1);
    FindAtMost(s, marker, 1);
  }

  // ---------- Compacting again ----------

  lemma {:induction false} WalkBackShifted(ms: seq<Message>, prefix: nat, k: nat, front: Message)
    requires prefix <= k <= |ms|
    ensures var keep := WalkBack(ms, prefix, k);
            keep <= k && WalkBack([front] + ms[keep..], 1, k - keep + 1) == if k < |ms| then 1 else k - keep + 1
    decreases k
  {
    WalkBackBounds(ms, prefix, k);
    var keep := WalkBack(ms, prefix, k);
    var after := [front] + ms[keep..];
    if keep < k {
      assert after[k - keep + 1] == ms[k];
      assert k - keep >= 1 && after[k - keep] == ms[k - 1];
      if !HasToolUse(ms[k - 1]) {
        WalkBackShifted(ms, prefix, k - 1, front);
      } else {
        assert keep == k - 1;
      }
    }
  }

  /** Compacting again with the same configuration keeps the very same tail and removes
      nothing; and it happens only when the boundary had been moved back and the tail
      is still large. */
  lemma {:induction false} CompactingAgain(session: Session, config: Config, w: Wording, v: Wording)
    requires ShouldCompact(session.messages, config)
    ensures var ms := session.messages;
            var keep, raw := KeepFrom(ms, config), RawKeepFrom(ms, config);
            var once := Compacted(session, config, w).session;
            var twice := Compacted(once, config, v);
            && twice.removed == 0
            && twice.session.messages[1..] == once.messages[1..]
            && (ShouldCompact(once.messages, config) <==> keep < raw && Tokens(ms[keep..]) >= config.maxTokens)
  {
    var ms := session.messages;
    var once := Compacted(session, config, w).session;
    var keep := KeepFromBounded(ms, config);
    CompactedIsRecognised(session, config, w);
    assert once.messages[1..] == ms[keep..];
    WhetherAgain(ms, once.messages, config);
    if ShouldCompact(once.messages, config) {
      SameBoundary(ms, once.messages, config);
      Accounting(once, config, v);
    }
  }

  /** `once` is a recognised summary and then the kept tail of `ms`. */
  ghost predicate IsCompacted(ms: seq<Message>, once: seq<Message>, config: Config) {
    && ShouldCompact(ms, config) && KeepFrom(ms, config) <= |ms|
    && once != [] && once[1..] == ms[KeepFrom(ms, config)..] && PrefixLen(once) == 1
  }

  lemma {:induction false} WhetherAgain(ms: seq<Message>, once: seq<Message>, config: Config)
    requires IsCompacted(ms, once, config)
    ensures ShouldCompact(once, config) <==>
            KeepFrom(ms, config) < RawKeepFrom(ms, config) && Tokens(ms[KeepFrom(ms, config)..]) >= config.maxTokens
  {
    var keep := KeepFromBounded(ms, config);
    RawIsShifted(ms, config);
    WalkStopsShort(ms, PrefixLen(ms), RawKeepFrom(ms, config));
  }

  lemma {:induction false} SameBoundary(ms: seq<Message>, once: seq<Message>, config: Config)
    requires IsCompacted(ms, once, config) && ShouldCompact(once, config)
    ensures KeepFrom(once, config) == 1
  {
    RawAgain(ms, once, config);
    WalkBackOnce(ms, PrefixLen(ms), RawKeepFrom(ms, config), once);
  }

  lemma {:induction false} WalkBackOnce(ms: seq<Message>, prefix: nat, k: nat, once: seq<Message>)
    requires prefix <= WalkBack(ms, prefix, k) <= k < |ms|
    requires once != [] && once[1..] == ms[WalkBack(ms, prefix, k)..]
    ensures WalkBack(once, 1, k - WalkBack(ms, prefix, k) + 1) == 1
  {
    var keep := WalkBack(ms, prefix, k);
    WalkBackShifted(ms, prefix, k, once[0]);
    assert [once[0]] + ms[keep..] == once;
  }

  lemma {:induction false} RawAgain(ms: seq<Message>, once: seq<Message>, config: Config)
    requires IsCompacted(ms, once, config) && ShouldCompact(once, config)
    ensures PrefixLen(ms) <= KeepFrom(ms, config) <= RawKeepFrom(ms, config) < |ms|
    ensures RawKeepFrom(once, config) == RawKeepFrom(ms, config) - KeepFrom(ms, config) + 1
  {
    var keep := KeepFromBounded(ms, config);
    WhetherAgain(ms, once, config);
    RawIsShifted(ms, config);
    RawIsShifted(once, config);
    WalkStopsShort(ms, PrefixLen(ms), RawKeepFrom(ms, config));
  }

  lemma {:induction false} RawIsShifted(ms: seq<Message>, config: Config)
    requires ShouldCompact(ms, config)
    ensures RawKeepFrom(ms, config) ==
            if config.preserveRecent == 0 then |ms| else |ms| - config.preserveRecent
  {
  }

  lemma {:induction false} WalkStopsShort(ms: seq<Message>, prefix: nat, k: nat)
    ensures WalkBack(ms, prefix, k) < k ==> k < |ms|
  {
  }
}
