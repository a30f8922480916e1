/** What a frame reads as, whatever lines it is written in (WHATWG HTML, section 9.2.6). */
module SseFrames {
  import opened Text
  import opened Utf8
  import opened SseParser

  /** A line as it is written: a comment, an event name, data, or anything else. */
  datatype Written = Note(text: string) | Name(text: string) | Data(text: string) | Stray(text: string)

  function TextOf(l: Written): string {
    match l
    case Note(text) => ":" + text
    case Name(text) => "event:" + text
    case Data(text) => "data:" + text
    case Stray(text) => text
  }

  /** One line, none of the other kinds if it is a stray one. */
  predicate OneLine(l: Written) {
    var s := TextOf(l);
    && '\n' !in s && (s != "" ==> s[|s| - 1] != '\r')
    && (l.Stray? ==> !(":" <= s) && !("event:" <= s) && !("data:" <= s))
  }

  function TextsOf(ls: seq<Written>): seq<string> {
    seq(|ls|, i requires 0 <= i < |ls| => TextOf(ls[i]))
  }

  /** Lines that begin and end with something to be seen. */
  predicate IsFrame(ls: seq<Written>) {
    (forall l :: l in ls ==> OneLine(l)) && VisibleEnds(TextsOf(ls))
  }

  predicate VisibleEnds(texts: seq<string>) {
    && texts != [] && texts[0] != "" && !IsWhitespace(texts[0][0])
    && var last := texts[|texts| - 1];
       last != "" && !IsWhitespace(last[|last| - 1])
  }

  /** The data in order, each text without the blanks in front. */
  function DataTexts(ls: seq<Written>): seq<string> {
    if ls == [] then []
    else (if ls[0].Data? then [TrimStart(ls[0].text)] else []) + DataTexts(ls[1..])
  }

  /** The last event name is `name`. */
  ghost predicate LastNamed(ls: seq<Written>, name: string) {
    exists i :: NamedAt(ls, name, i)
  }

  predicate NamedAt(ls: seq<Written>, name: string, i: int) {
    0 <= i < |ls| && ls[i].Name? && Trim(ls[i].text) == name && forall j :: i < j < |ls| ==> !ls[j].Name?
  }

  // ---------- Lines ----------

  function LineOf(l: Written): Line {
    match l
    case Note(_) => Comment
    case Name(text) => EventLine(Trim(text))
    case Data(text) => DataLine(TrimStart(text))
    case Stray(_) => Other
  }

  lemma {:induction false} WrittenClassified(l: Written)
    requires OneLine(l)
    ensures Classify(TextOf(l)) == LineOf(l)
  {
    match l
    case Note(_) =>
    case Name(text) => EventLineClassified(text);
    case Data(text) => DataLineClassified(text);
    case Stray(_) =>
  }

  function LinesOf(ls: seq<Written>): (r: seq<Line>)
    ensures |r| == |ls|
  {
    seq(|ls|, i requires 0 <= i < |ls| => LineOf(ls[i]))
  }

  lemma {:induction false} AllClassified(ls: seq<Written>)
    requires forall l :: l in ls ==> OneLine(l)
    ensures ClassifyAll(TextsOf(ls)) == LinesOf(ls)
  {
    forall i | 0 <= i < |ls| ensures Classify(TextsOf(ls)[i]) == LinesOf(ls)[i] {
      assert ls[i] in ls;
      WrittenClassified(ls[i]);
    }
  }

  lemma {:induction false} DataOfLines(ls: seq<Written>)
    ensures DataLines(LinesOf(ls)) == DataTexts(ls)
  {
    if ls != [] {
      DataOfLines(ls[1..]);
      DataAfter(LineOf(ls[0]), LinesOf(ls[1..]));
      assert LinesOf(ls) == [LineOf(ls[0])] + LinesOf(ls[1..]);
    }
  }

  lemma {:induction false} NameOfLines(ls: seq<Written>, name: string)
    ensures EventName(LinesOf(ls)) == Some(name) <==> LastNamed(ls, name)
  {
    if ls != [] {
      var n := |ls| - 1;
      assert LinesOf(ls)[..n] == LinesOf(ls[..n]);
      if ls[n].Name? {
        assert NamedAt(ls, Trim(ls[n].text), n);
      } else {
        NameOfLines(ls[..n], name);
        if i :| NamedAt(ls[..n], name, i) {
          assert NamedAt(ls, name, i);
        }
        if i :| NamedAt(ls, name, i) {
          assert NamedAt(ls[..n], name, i);
        }
      }
    }
  }

  lemma {:induction false} DataIsOneLine(ls: seq<Written>)
    requires forall l :: l in ls ==> OneLine(l)
    ensures forall d :: d in DataTexts(ls) ==> '\n' !in d
  {
    if ls != [] {
      DataIsOneLine(ls[1..]);
      if ls[0].Data? {
        assert ls[0] in ls && TextOf(ls[0])[5..] == ls[0].text;
        TrimStartSuffix(ls[0].text);
      }
    }
  }

  // ---------- The theorem ----------

  lemma {:induction false} FrameIsTrimmed(ls: seq<Written>)
    requires IsFrame(ls)
    ensures IsTrimmed(Join(TextsOf(ls), "\n")) && Lines(Join(TextsOf(ls), "\n")) == TextsOf(ls)
  {
    TextsAreLines(ls);
    LastIsVisible(TextsOf(ls));
    LinesOfJoin(TextsOf(ls));
    JoinIsTrimmed(TextsOf(ls));
  }

  lemma {:induction false} LastIsVisible(texts: seq<string>)
    requires VisibleEnds(texts)
    ensures texts != [] && texts[|texts| - 1] != ""
  {
  }

  lemma {:induction false} JoinIsTrimmed(texts: seq<string>)
    requires VisibleEnds(texts)
    ensures IsTrimmed(Join(texts, "\n"))
  {
    JoinEnds(texts);
  }

  lemma {:induction false} TextsAreLines(ls: seq<Written>)
    requires forall l :: l in ls ==> OneLine(l)
    ensures forall t :: t in TextsOf(ls) ==> '\n' !in t && (t != "" ==> t[|t| - 1] != '\r')
  {
    var texts := TextsOf(ls);
    forall t | t in texts ensures '\n' !in t && (t != "" ==> t[|t| - 1] != '\r') {
      var i :| 0 <= i < |texts| && texts[i] == t;
      assert OneLine(ls[i]) by { assert ls[i] in ls; }
    }
  }

  lemma {:induction false} JoinEnds(texts: seq<string>)
    requires texts != [] && texts[0] != "" && texts[|texts| - 1] != ""
    ensures var s, last := Join(texts, "\n"), texts[|texts| - 1];
            s != "" && s[0] == texts[0][0] && s[|s| - 1] == last[|last| - 1]
    decreases |texts|
  {
    JoinLast(texts);
  }

  lemma {:induction false} JoinLast(texts: seq<string>)
    requires texts != [] && texts[|texts| - 1] != ""
    ensures var s, last := Join(texts, "\n"), texts[|texts| - 1];
            s != "" && s[|s| - 1] == last[|last| - 1]
    decreases |texts|
  {
    if |texts| > 1 {
      JoinLast(texts[1..]);
    }
  }

  /** A frame of any such lines, with any blanks around it, is read as its data: there is a
      payload exactly if there is data, that is not `[DONE]` alone, and the last event name is
      not `ping`; and between the data texts, in order, there is one line feed each. */
  lemma {:induction false} FrameReads(ls: seq<Written>, before: string, after: string)
    requires IsFrame(ls) && AllBlank(before) && AllBlank(after)
    ensures var payload := PayloadOf(before + (Join(TextsOf(ls), "\n") + after));
            && (payload.Some? <==>
                DataTexts(ls) != [] && DataTexts(ls) != ["[DONE]"] && !LastNamed(ls, "ping"))
            && (payload.Some? ==> SplitOn(payload.value, '\n') == DataTexts(ls))
  {
    var frame, ds := Join(TextsOf(ls), "\n"), DataTexts(ls);
    FrameIsTrimmed(ls);
    TrimBetween(before, frame, after);
    AllClassified(ls);
    DataOfLines(ls);
    NameOfLines(ls, "ping");
    DataIsOneLine(ls);
    if ds != [] {
      SplitOfJoin(ds, '\n');
      DoneAlone(ds);
    }
  }

  lemma {:induction false} DoneAlone(ds: seq<string>)
    requires ds != [] && SplitOn(Join(ds, "\n"), '\n') == ds
    ensures Join(ds, "\n") == "[DONE]" <==> ds == ["[DONE]"]
  {
    FindNowhere("[DONE]", '\n');
    assert SplitOn("[DONE]", '\n') == ["[DONE]"];
  }

  /** The two data lines of one event, say. */
  lemma {:induction false} TwoDataLines(a: string, b: string)
    requires a != "" && b != "" && '\n' !in a && '\n' !in b && IsTrimmed(a) && IsTrimmed(b)
    ensures PayloadOf("data: " + a + "\n" + "data: " + b) == Some(a + "\n" + b)
  {
    var ls := [Data(" " + a), Data(" " + b)];
    DataFrame(ls, a, b);
    FrameReads(ls, "", "");
    var frame := "data: " + a + "\n" + "data: " + b;
    assert "" + (frame + "") == frame;
    JoinOfSplit(PayloadOf(frame).value, '\n');
    assert [a, b][1..] == [b];
  }

  lemma {:induction false} DataFrame(ls: seq<Written>, a: string, b: string)
    requires a != "" && b != "" && '\n' !in a && '\n' !in b && IsTrimmed(a) && IsTrimmed(b)
    requires ls == [Data(" " + a), Data(" " + b)]
    ensures IsFrame(ls) && DataTexts(ls) == [a, b]
    ensures Join(TextsOf(ls), "\n") == "data: " + a + "\n" + "data: " + b
  {
    DataText(a);
    DataText(b);
    BlankBefore(a);
    BlankBefore(b);
    assert ls[1..] == [ls[1]] && ls[1..][1..] == [];
    assert DataTexts([]) == [] && DataTexts([ls[1]]) == [b];
    assert TextsOf(ls)[1..] == ["data: " + b] && TextsOf(ls)[0] == "data: " + a;
  }

  lemma {:induction false} DataText(a: string)
    requires a != "" && '\n' !in a && IsTrimmed(a)
    ensures OneLine(Data(" " + a)) && TextOf(Data(" " + a)) == "data: " + a
  {
    assert "data: " == "data:" + " ";
    Assoc("data:", " ", a);
    assert ("data: " + a)[|"data: " + a| - 1] == a[|a| - 1];
  }

  lemma {:induction false} BlankBefore(a: string)
    requires IsTrimmed(a)
    ensures TrimStart(" " + a) == a
  {
    assert (" " + a)[1..] == a;
    TrimOfTrimmed(a);
  }

  // ---------- Errors ----------

  /** A payload that does not decode is reported as it is, with its cause and what it was for. */
  lemma {:induction false} ErrorNames<E>(frame: string, decode: string -> Result<E, string>, provider: string,
                                         model: string)
    ensures var r, payload := Decoded(frame, decode, provider, model), PayloadOf(frame);
            && (r.Err? <==> payload.Some? && decode(payload.value).Err?)
            && (r.Err? ==> r.error.provider == provider && r.error.model == model
                           && r.error.payload == payload.value && Err(r.error.cause) == decode(payload.value))
            && (r == Ok(None) <==> payload.None?)
            && (r.Ok? && r.value.Some? ==> Ok(r.value.value) == decode(payload.value))
  {
  }

  /** So it is for the frames of a stream, whose bytes are read with replacement characters. */
  lemma {:induction false} StreamErrorNames<E>(c: Context<E>, frame: seq<byte>)
    ensures var r, payload := FrameEvent(c, frame), PayloadOf(Lossy(frame));
            && (r.Err? <==> payload.Some? && c.decode(payload.value).Err?)
            && (r.Err? ==> r.error.provider == c.provider && r.error.model == c.model
                           && r.error.payload == payload.value && Err(r.error.cause) == c.decode(payload.value))
            && (r == Ok(None) <==> payload.None?)
            && (r.Ok? && r.value.Some? ==> Ok(r.value.value) == c.decode(payload.value))
  {
  }
}
