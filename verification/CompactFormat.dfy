/** What `format_compact_summary` makes of a summary: the analysis goes, the tagged summary
    gets a heading, and blank lines are collapsed. */
module CompactFormat {
  import opened Text
  import opened CompactSummary

  /** Collapsed and trimmed. */
  function Cleaned(s: string): string {
    Trim(Unlines(Collapse(Lines(s), false)))
  }

  // ---------- Tags ----------

  /** A tag is found after a text in which it does not begin anywhere. */
  lemma {:induction false} TagAfter(before: string, tag: string, after: string)
    requires tag != "" && tag[0] == '<' && '<' !in before
    ensures Find(before + (tag + after), tag) == Some(|before|)
  {
    var s := before + (tag + after);
    forall i | 0 <= i < |before| ensures !At(s, tag, i) {
      AtIsSlice(s, tag, i);
      assert s[i] == before[i] && before[i] in before;
    }
    AtIsSlice(s, tag, |before|);
    assert s[|before|..|before| + |tag|] == tag;
    FindIs(s, tag, |before|);
  }

  /** The closing tag is found after the opening one. */
  lemma {:induction false} ClosingAfter(open: string, inner: string, close: string, after: string)
    requires |open| > 1 && |close| > 1 && open[0] == '<' == close[0] && open[1] != close[1]
    requires '<' !in open[1..] && '<' !in inner
    ensures Find(open + inner + close + after, close) == Some(|open| + |inner|)
  {
    var before := open + inner;
    var s := before + close + after;
    forall i | 0 <= i < |before| ensures !At(s, close, i) {
      AtIsSlice(s, close, i);
      if i == 0 {
        assert s[..|close|][1] == s[1] == open[1];
      } else if i < |open| {
        assert s[i] == open[1..][i - 1] && open[1..][i - 1] in open[1..];
      } else {
        assert s[i] == inner[i - |open|] && inner[i - |open|] in inner;
      }
    }
    AtIsSlice(s, close, |before|);
    assert s[|before|..|before| + |close|] == close;
    FindIs(s, close, |before|);
  }

  lemma {:induction false} AnalysisGoes(a: string, rest: string)
    requires '<' !in a
    ensures StripTagBlock("<analysis>" + a + "</analysis>" + rest, "analysis") == rest
  {
    var open, close := "<analysis>", "</analysis>";
    var s := open + a + close + rest;
    assert OpenTag("analysis") == open && CloseTag("analysis") == close;
    ClosingAfter(open, a, close, rest);
    assert "" + (open + (a + close + rest)) == s;
    TagAfter("", open, a + close + rest);
    assert s[..0] == "" && s[|open| + |a| + |close|..] == rest;
  }

  lemma {:induction false} SummaryExtracted(m: string, b: string, p: string)
    requires '<' !in m && '<' !in b
    ensures ExtractTagBlock(m + ("<summary>" + (b + ("</summary>" + p))), "summary") == Some(b)
  {
    var s := m + ("<summary>" + (b + ("</summary>" + p)));
    assert OpenTag("summary") == "<summary>" && CloseTag("summary") == "</summary>";
    TagAfter(m, "<summary>", b + ("</summary>" + p));
    var rest := s[|m| + |"<summary>"|..];
    assert rest == b + ("</summary>" + p);
    TagAfter(b, "</summary>", p);
    assert rest[..|b|] == b;
  }

  lemma {:induction false} SummaryReplaced(m: string, b: string, p: string, with: string)
    requires '<' !in m && '<' !in p
    ensures ReplaceAll(m + ("<summary>" + (b + ("</summary>" + p))), "<summary>" + b + "</summary>", with) ==
            m + with + p
  {
    var tag := "<summary>" + b + "</summary>";
    var s := m + ("<summary>" + (b + ("</summary>" + p)));
    assert s == m + (tag + p);
    TagAfter(m, tag, p);
    assert s[..|m|] == m && s[|m| + |tag|..] == p;
    NowhereIn(p, tag);
  }

  lemma {:induction false} NowhereIn(p: string, tag: string)
    requires tag != "" && tag[0] == '<' && '<' !in p
    ensures Find(p, tag) == None
  {
    forall i | 0 <= i < |p| ensures !At(p, tag, i) {
      AtIsSlice(p, tag, i);
      assert p[i] in p;
    }
  }

  /** The analysis in front is dropped, and the tagged summary becomes its trimmed text under a
      heading; what stands around it stays. */
  lemma {:induction false} TagsFormatted(a: string, m: string, b: string, p: string)
    requires '<' !in a && '<' !in m && '<' !in b && '<' !in p
    ensures FormatSummary("<analysis>" + a + "</analysis>" + (m + ("<summary>" + (b + ("</summary>" + p))))) ==
            Cleaned(m + ("Summary:\n" + Trim(b)) + p)
  {
    AnalysisGoes(a, m + ("<summary>" + (b + ("</summary>" + p))));
    SummaryExtracted(m, b, p);
    SummaryReplaced(m, b, p, "Summary:\n" + Trim(b));
  }

  /** Text without tags is only cleaned. */
  lemma {:induction false} UntaggedFormatted(s: string)
    requires '<' !in s
    ensures FormatSummary(s) == Cleaned(s)
  {
    NoTag(s, "analysis");
    NoTag(s, "summary");
  }

  // ---------- Cleaning ----------

  lemma {:induction false} UnlinesIsJoin(ls: seq<string>)
    requires ls != []
    ensures Unlines(ls) == Join(ls, "\n") + "\n"
  {
    if |ls| == 1 {
      assert ls[1..] == [];
      assert ls[0] + "\n" + "" == ls[0] + "\n";
    } else {
      UnlinesIsJoin(ls[1..]);
      Assoc(ls[0] + "\n", Join(ls[1..], "\n"), "\n");
    }
  }

  /** Lines that begin and end with something to be seen are joined again without the blank
      ones that follow a blank one. */
  lemma {:induction false} LinesCleaned(ls: seq<string>)
    requires forall l :: l in ls ==> '\n' !in l && (l != "" ==> l[|l| - 1] != '\r')
    requires ls != [] && IsTrimmed(Join(ls, "\n")) && ls[|ls| - 1] != ""
    requires IsTrimmed(Join(Collapse(ls, false), "\n"))
    ensures Cleaned(Join(ls, "\n")) == Join(Collapse(ls, false), "\n")
  {
    LinesOfJoin(ls);
    var kept := Collapse(ls, false);
    UnlinesIsJoin(kept);
    var s := Join(kept, "\n");
    TrimBetween("", s, "\n");
    assert "" + (s + "\n") == s + "\n";
  }

  /** Lines no two of which are blank one after the other are not changed. */
  lemma {:induction false} SettledKept(ls: seq<string>)
    requires forall l :: l in ls ==> '\n' !in l && (l != "" ==> l[|l| - 1] != '\r')
    requires ls != [] && IsTrimmed(Join(ls, "\n")) && ls[|ls| - 1] != "" && NoTwoBlank(ls)
    ensures Cleaned(Join(ls, "\n")) == Join(ls, "\n")
  {
    CollapseLeavesNoTwoBlank(ls, false);
    LinesCleaned(ls);
  }

  /** A one-line summary behind an analysis, say. */
  lemma {:induction false} OneLineFormatted(a: string, b: string)
    requires '<' !in a && '<' !in b && '\n' !in b && b != "" && IsTrimmed(b)
    ensures FormatSummary("<analysis>" + a + "</analysis>" + ("\n" + ("<summary>" + (b + ("</summary>" + ""))))) ==
            "Summary:\n" + b
  {
    TagsFormatted(a, "\n", b, "");
    TrimOfTrimmed(b);
    HeadingCleaned(b);
  }

  lemma {:induction false} HeadingCleaned(b: string)
    requires IsLine(b) && IsTrimmed(b)
    ensures Cleaned("\n" + ("Summary:\n" + b) + "") == "Summary:\n" + b
  {
    var out := "Summary:\n" + b;
    assert "\n" + out + "" == "\n" + out && out == "Summary:" + "\n" + b;
    HeadingLines(b);
    LeadingBreak("Summary:", b);
  }

  lemma {:induction false} HeadingLines(b: string)
    requires b != "" && IsTrimmed(b)
    ensures IsTrimmed("Summary:\n" + b) && !IsBlank("Summary:") && !IsBlank(b) && IsBlank("")
  {
    TrimOfTrimmed(b);
    TrimOfTrimmed("Summary:");
    assert ("Summary:\n" + b)[|"Summary:\n" + b| - 1] == b[|b| - 1];
  }

  /** A line break in front of two lines goes. */
  lemma {:induction false} LeadingBreak(h: string, b: string)
    requires IsLine(h) && IsLine(b) && !IsBlank(h) && !IsBlank(b) && IsBlank("")
    requires h[|h| - 1] != '\r' && IsTrimmed(h + "\n" + b)
    ensures Cleaned("\n" + (h + "\n" + b)) == h + "\n" + b
  {
    var out := h + "\n" + b;
    ThreeLines(h, b);
    ThreeKept(h, b);
    TrimBetween("\n", out, "\n");
  }

  lemma {:induction false} ThreeLines(h: string, b: string)
    requires IsLine(h) && IsLine(b) && h[|h| - 1] != '\r'
    ensures Lines("\n" + (h + "\n" + b)) == ["", h, b]
  {
    BreakFirst(h + "\n" + b);
    TwoLines(h, b);
  }

  lemma {:induction false} BreakFirst(t: string)
    ensures Lines("\n" + t) == [""] + Lines(t)
  {
    LineEndings("", t);
    assert "" + ("\n" + t) == "\n" + t;
  }

  lemma {:induction false} TwoLines(h: string, b: string)
    requires IsLine(h) && IsLine(b) && h[|h| - 1] != '\r'
    ensures Lines(h + "\n" + b) == [h, b]
  {
    LineEndings(h, b);
    NoNewline(b);
    Assoc(h, "\n", b);
  }

  lemma {:induction false} ThreeKept(h: string, b: string)
    requires !IsBlank(h) && !IsBlank(b) && IsBlank("")
    ensures Unlines(Collapse(["", h, b], false)) == "\n" + (h + "\n" + b + "\n")
  {
    var ls := ["", h, b];
    assert ls[1..] == [h, b] && [h, b][1..] == [b] && [b][1..] == [];
    CollapseLeavesNoTwoBlank(ls, false);
    assert Unlines([b]) == b + "\n";
    assert Unlines([h, b]) == h + "\n" + (b + "\n");
    assert Unlines(ls) == "" + "\n" + (h + "\n" + (b + "\n"));
  }
}
