/** Model of `append_sse` in `mock-anthropic-service/src/lib.rs`, and what it and the
    parser of `api/src/sse.rs` promise each other. */
module SsePrinter {
  import opened Text
  import opened Utf8
  import opened Sse
  import opened SseParser

  datatype Event = Event(name: string, payload: string)

  function NameLine(e: Event): string {
    "event: " + e.name
  }

  function PayloadLine(e: Event): string {
    "data: " + e.payload
  }

  function FrameText(e: Event): string {
    NameLine(e) + "\n" + PayloadLine(e)
  }

  /** `append_sse`: two lines and an empty one, which make a printed body longer by its event. */
  method AppendSse(buffer: string, e: Event) returns (r: string)
    ensures r == buffer + ("event: " + e.name + "\n" + "data: " + e.payload + "\n" + "\n")
    ensures forall es :: buffer == Body(es) ==> r == Body(es + [e])
  {
    forall es | buffer == Body(es) ensures Body(es + [e]) == buffer + (FrameText(e) + "\n\n") {
      BodyAppend(es, e);
    }
    r := buffer + "event: " + e.name + "\n";
    r := r + "data: " + e.payload + "\n";
    r := r + "\n";
  }

  function Body(es: seq<Event>): string {
    if es == [] then "" else FrameText(es[0]) + "\n\n" + Body(es[1..])
  }

  lemma {:induction false} BodyAppend(es: seq<Event>, e: Event)
    ensures Body(es + [e]) == Body(es) + (FrameText(e) + "\n\n")
    decreases |es|
  {
    if es == [] {
      assert [e][1..] == [] && [] + [e] == [e];
      assert Body([e]) == FrameText(e) + "\n\n" + "";
    } else {
      assert (es + [e])[1..] == es[1..] + [e];
      BodyAppend(es[1..], e);
      Assoc(FrameText(es[0]) + "\n\n", Body(es[1..]), FrameText(e) + "\n\n");
    }
  }

  /** What the parser gives back: one-line texts, the payload trimmed, but for the event name
      and the payload that it drops. */
  predicate Printable(e: Event) {
    && '\n' !in e.name && Trim(e.name) != "ping"
    && '\n' !in e.payload && IsTrimmed(e.payload) && e.payload != "[DONE]"
  }

  // ---------- Trimming ----------

  lemma {:induction false} TrimEndConcat(a: string, b: string)
    requires a != "" && !IsWhitespace(a[|a| - 1])
    ensures TrimEnd(a + b) == a + TrimEnd(b)
    decreases |b|
  {
    if b == "" {
      assert a + b == a;
    } else if IsWhitespace(b[|b| - 1]) {
      assert (a + b)[..|a + b| - 1] == a + b[..|b| - 1];
      TrimEndConcat(a, b[..|b| - 1]);
    }
  }

  lemma {:induction false} TrimDropsCr(s: string)
    ensures Trim(StripCr(s)) == Trim(s)
    decreases |s|
  {
    var t := StripCr(s);
    if t != s && t != "" && IsWhitespace(s[0]) {
      assert StripCr(s[1..]) == t[1..];
      TrimDropsCr(s[1..]);
    }
  }

  lemma {:induction false} BlankInFront(s: string)
    ensures TrimStart(" " + s) == TrimStart(s) && Trim(" " + s) == Trim(s)
  {
    assert (" " + s)[1..] == s;
  }

  // ---------- The lines of one frame ----------

  lemma {:induction false} NameLineRead(e: Event)
    ensures Classify(StripCr(NameLine(e))) == EventLine(Trim(e.name))
  {
    var blank := " " + e.name;
    assert "event: " == "event:" + " ";
    Assoc("event:", " ", e.name);
    assert NameLine(e) == "event:" + blank;
    assert StripCr("event:" + blank) == "event:" + StripCr(blank);
    EventLineClassified(StripCr(blank));
    TrimDropsCr(blank);
    BlankInFront(e.name);
  }

  /** What trimming a frame leaves of its payload line, without `data:`. */
  function Rest(e: Event): string {
    TrimEnd(" " + e.payload)
  }

  lemma {:induction false} FrameTrimmed(e: Event)
    ensures FrameText(e) == NameLine(e) + ("\n" + PayloadLine(e))
    ensures Trim(FrameText(e)) == NameLine(e) + ("\n" + ("data:" + Rest(e)))
  {
    var front := NameLine(e) + ("\n" + "data:");
    Assoc(NameLine(e), "\n", PayloadLine(e));
    assert "data: " == "data:" + " ";
    assert FrameText(e) == front + (" " + e.payload);
    TrimEndConcat(front, " " + e.payload);
    assert TrimStart(FrameText(e)) == FrameText(e);
  }

  /** The data lines that follow the name line. */
  function DataOf(s: string): seq<string> {
    DataLines(ClassifyAll(Lines(s)))
  }

  lemma {:induction false} FrameData(e: Event)
    requires '\n' !in e.name
    ensures ClassifyAll(Lines(Trim(FrameText(e)))) ==
            [EventLine(Trim(e.name))] + ClassifyAll(Lines("data:" + Rest(e)))
    ensures DataLines(ClassifyAll(Lines(Trim(FrameText(e))))) == DataOf("data:" + Rest(e))
  {
    var rest := "data:" + Rest(e);
    FrameTrimmed(e);
    FirstLine(NameLine(e), rest);
    NameLineRead(e);
    ClassifyFirst(StripCr(NameLine(e)), Lines(rest));
    DataAfter(EventLine(Trim(e.name)), ClassifyAll(Lines(rest)));
  }

  lemma {:induction false} ClassifyFirst(line: string, lines: seq<string>)
    ensures ClassifyAll([line] + lines) == [Classify(line)] + ClassifyAll(lines)
  {
  }

  /** A one-line payload is read without the blanks around it. */
  lemma {:induction false} OneLineRead(e: Event)
    requires '\n' !in e.name && '\n' !in e.payload
    ensures var read := TrimStart(Rest(e));
            PayloadOf(FrameText(e)) == if Trim(e.name) == "ping" || read == "[DONE]" then None else Some(read)
  {
    var name, data := EventLine(Trim(e.name)), "data:" + Rest(e);
    FrameData(e);
    TrimEndPrefix(" " + e.payload);
    NoNewline(data);
    DataLineClassified(Rest(e));
    assert ClassifyAll([data]) == [Classify(data)];
    PayloadOfTwo(Trim(e.name), TrimStart(Rest(e)));
  }

  lemma {:induction false} PayloadOfTwo(name: string, data: string)
    ensures PayloadOfLines([EventLine(name)] + [DataLine(data)]) ==
            if name == "ping" || data == "[DONE]" then None else Some(data)
  {
    var lines := [EventLine(name)] + [DataLine(data)];
    assert lines[..2] == lines && lines[..0] == [];
    LinesStep(lines, 1);
    LinesStep(lines, 0);
    assert DataLines(lines) == [data];
  }

  /** Exactly a trimmed text is read as it was printed. */
  lemma {:induction false} TrimmedIsRead(e: Event)
    ensures TrimStart(Rest(e)) == e.payload <==> IsTrimmed(e.payload)
  {
    var blank := " " + e.payload;
    if IsTrimmed(e.payload) {
      BlankInFront(e.payload);
      TrimOfTrimmed(e.payload);
      if e.payload == "" {
        assert blank[..0] == "";
      }
    } else {
      TrimEndEnds(blank);
      TrimStartHead(Rest(e));
      TrimStartSuffix(Rest(e));
    }
  }

  // ---------- Payloads of several lines ----------

  /** The characters of the parts and of a line feed after each. */
  function Weight(parts: seq<string>): nat {
    if parts == [] then 0 else |parts[0]| + 1 + Weight(parts[1..])
  }

  lemma {:induction false} JoinWeighs(parts: seq<string>)
    requires parts != []
    ensures |Join(parts, "\n")| + 1 == Weight(parts)
    decreases |parts|
  {
    if |parts| > 1 {
      JoinWeighs(parts[1..]);
    }
  }

  function DataPart(line: string): seq<string> {
    if Classify(line).DataLine? then [Classify(line).data] else []
  }

  lemma {:induction false} DataPartShort(line: string)
    ensures DataPart(line) != [] ==> Weight(DataPart(line)) <= |line|
  {
    var rest := StripPrefix(line, "data:");
    if rest.Some? {
      TrimShortens(rest.value);
    }
  }

  lemma {:induction false} DataOfStep(line: string, lines: seq<string>)
    ensures DataLines(ClassifyAll([line] + lines)) == DataPart(line) + DataLines(ClassifyAll(lines))
  {
    ClassifyFirst(line, lines);
    DataAfter(Classify(line), ClassifyAll(lines));
  }

  lemma {:induction false} WeightOfTwo(a: seq<string>, b: seq<string>)
    requires |a| <= 1
    ensures Weight(a + b) == Weight(a) + Weight(b)
  {
    if a == [] {
      assert a + b == b;
    } else {
      assert (a + b)[1..] == b && a[1..] == [];
    }
  }

  lemma {:induction false} DataIsShort(s: string)
    ensures Weight(DataOf(s)) <= |s|
    decreases |s|
  {
    if s != "" {
      match Find(s, "\n")
      case None =>
        assert [s] + [] == [s];
        DataOfStep(s, []);
        DataPartShort(s);
      case Some(i) =>
        var line := StripCr(s[..i]);
        DataOfStep(line, Lines(s[i + 1..]));
        DataPartShort(line);
        DataIsShort(s[i + 1..]);
        WeightOfTwo(DataPart(line), DataOf(s[i + 1..]));
    }
  }

  /** A payload with a line feed is read shorter than it was printed: each further line loses
      its `data:` or is dropped. */
  lemma {:induction false} SeveralLinesRead(e: Event)
    requires '\n' !in e.name && '\n' in e.payload
    ensures PayloadOf(FrameText(e)) != Some(e.payload)
  {
    var rest := Rest(e);
    FrameData(e);
    RestIsShort(e);
    if DataOf("data:" + rest) != [] {
      JoinWeighs(DataOf("data:" + rest));
    }
  }

  lemma {:induction false} RestIsShort(e: Event)
    requires '\n' in e.payload
    ensures Weight(DataOf("data:" + Rest(e))) <= |e.payload|
  {
    var rest, blank := Rest(e), " " + e.payload;
    var s := "data:" + rest;
    TrimEndPrefix(blank);
    if '\n' in rest {
      FirstDataShort(s);
    } else {
      var i :| 0 <= i < |e.payload| && e.payload[i] == '\n';
      assert blank[i + 1] == '\n';
      assert |rest| <= i + 1;
      NoNewline(s);
      assert [s] + [] == [s];
      DataOfStep(s, []);
      FirstPartShort(s);
    }
  }

  lemma {:induction false} FirstPartShort(line: string)
    requires "data:" <= line && (|line| > 5 ==> line[5] == ' ')
    ensures Weight(DataPart(line)) <= if |line| > 5 then |line| - 5 else 1
  {
    var rest := line[5..];
    assert line == "data:" + rest;
    DataLineClassified(rest);
    if rest != "" {
      assert rest == " " + rest[1..];
      BlankInFront(rest[1..]);
      TrimShortens(rest[1..]);
    }
  }

  lemma {:induction false} FirstDataShort(s: string)
    requires "data: " <= s && '\n' in s
    ensures Weight(DataOf(s)) + 6 <= |s|
  {
    FindsNewline(s);
    var i := Find(s, "\n").value;
    var line := StripCr(s[..i]);
    FirstLineKept(s, i);
    DataOfStep(line, Lines(s[i + 1..]));
    FirstPartShort(line);
    DataIsShort(s[i + 1..]);
    WeightOfTwo(DataPart(line), DataOf(s[i + 1..]));
  }

  lemma {:induction false} FirstLineKept(s: string, i: nat)
    requires "data: " <= s && 6 <= i < |s|
    ensures var line := StripCr(s[..i]);
            "data:" <= line && (|line| > 5 ==> line[5] == ' ')
  {
    assert s[..6] == "data: ";
  }

  lemma {:induction false} FindsNewline(s: string)
    requires "data: " <= s && '\n' in s
    ensures Find(s, "\n").Some? && 6 <= Find(s, "\n").value < |s|
  {
    var k :| 0 <= k < |s| && s[k] == '\n';
    assert Matches(s, "\n", k, 0);
    assert At(s, "\n", k);
    FindAtMost(s, "\n", k);
    var i := Find(s, "\n").value;
    AtIsSlice(s, "\n", i);
    forall j | 0 <= j < 6 ensures s[j] != '\n' {
      assert s[..6] == "data: " && s[j] == s[..6][j];
    }
  }

  /** A printed frame is read as its payload exactly if it is printable. */
  lemma {:induction false} FrameTextRead(e: Event)
    requires '\n' !in e.name
    ensures PayloadOf(FrameText(e)) == Some(e.payload) <==> Printable(e)
  {
    if '\n' in e.payload {
      SeveralLinesRead(e);
    } else {
      OneLineRead(e);
      TrimmedIsRead(e);
    }
  }

  // ---------- The bytes of a body ----------

  /** A line feed is never followed by a carriage return. */
  ghost predicate NoLfCr(s: seq<byte>) {
    forall i :: 0 <= i < |s| - 1 && s[i] == 10 ==> s[i + 1] != 13
  }

  lemma {:induction false} NoLfCrIsOrdered(s: seq<byte>)
    requires NoLfCr(s)
    ensures Ordered(s)
  {
    forall p ensures !At(s, CRLFCRLF, p) {
      AtIsSlice(s, CRLFCRLF, p);
      if 0 <= p && p + 4 <= |s| {
        assert s[p..p + 4][1] == s[p + 1] && s[p..p + 4][2] == s[p + 1 + 1];
      }
    }
  }

  /** The bytes of a frame: two lines without line feed, the second not empty. */
  lemma {:induction false} FrameBytes(e: Event) returns (a: seq<byte>, b: seq<byte>)
    requires Printable(e)
    ensures Encode(FrameText(e)) == a + ([10] + b)
    ensures 10 !in a && 10 !in b && a != [] && a[0] == 'e' as int && b != [] && b[0] == 'd' as int
  {
    a, b := Encode(NameLine(e)), Encode(PayloadLine(e));
    FrameTrimmed(e);
    Assoc(NameLine(e), "\n", PayloadLine(e));
    EncodeThree(NameLine(e), "\n", PayloadLine(e));
    NewlineEncoded();
    AsciiByteOccurs(NameLine(e), 10);
    AsciiByteOccurs(PayloadLine(e), 10);
    FirstByte(NameLine(e));
    FirstByte(PayloadLine(e));
  }

  lemma {:induction false} NewlineEncoded()
    ensures Encode("\n") == [10]
  {
    EncodeStep("\n");
    assert "\n"[1..] == "";
  }

  lemma {:induction false} FirstByte(s: string)
    requires s != "" && s[0] as int < 0x80
    ensures Encode(s) != [] && Encode(s)[0] == s[0] as int
  {
    EncodeStep(s);
  }

  lemma {:induction false} LineFeedsAt(s: seq<byte>, i: nat)
    ensures At(s, LFLF, i) <==> i + 2 <= |s| && s[i] == 10 && s[i + 1] == 10
  {
    if i + 2 <= |s| {
      assert Matches(s, LFLF, i, 0);
      assert Matches(s, LFLF, i, 1) <==> s[i] == 10;
      assert Matches(s, LFLF, i, 2) <==> Matches(s, LFLF, i, 1) && s[i + 1] == 10;
    }
  }

  lemma {:induction false} FirstFrame(a: seq<byte>, b: seq<byte>, rest: seq<byte>)
    requires 10 !in a && 10 !in b && b != []
    ensures NextFrame(a + ([10] + b) + (LFLF + rest)) == Frame(a + ([10] + b), rest)
  {
    var f := a + ([10] + b);
    var s := f + (LFLF + rest);
    forall i | 0 <= i < |f| ensures !At(s, LFLF, i) {
      LineFeedsAt(s, i);
      LineFeedsOf(a, b, i);
      if i + 1 < |f| { LineFeedsOf(a, b, i + 1); }
      assert s[i] == f[i] && (i + 1 < |f| ==> s[i + 1] == f[i + 1]);
    }
    LineFeedsAt(s, |f|);
    FindIs(s, LFLF, |f|);
    assert s[..|f|] == f && s[|f| + 2..] == rest;
  }

  lemma {:induction false} LineFeedsOf(a: seq<byte>, b: seq<byte>, i: nat)
    requires 10 !in a && 10 !in b && i < |a| + 1 + |b|
    ensures (a + ([10] + b))[i] == 10 <==> i == |a|
  {
    if i < |a| { assert a[i] in a; }
    if i > |a| { assert b[i - |a| - 1] in b; }
  }

  lemma {:induction false} NoLfCrInFrame(a: seq<byte>, b: seq<byte>, rest: seq<byte>)
    requires 10 !in a && 10 !in b && b != [] && b[0] != 13
    requires NoLfCr(rest) && (rest != [] ==> rest[0] != 13)
    ensures NoLfCr(a + ([10] + b) + (LFLF + rest))
  {
    var f := a + ([10] + b);
    var s := f + (LFLF + rest);
    forall i | 0 <= i < |s| - 1 && s[i] == 10 ensures s[i + 1] != 13 {
      if i < |f| {
        LineFeedsOf(a, b, i);
        assert s[i + 1] == b[0];
      } else if i >= |f| + 2 {
        assert s[i] == rest[i - |f| - 2] && s[i + 1] == rest[i - |f| - 2 + 1];
      }
    }
  }

  function FramesOf(es: seq<Event>): seq<seq<byte>> {
    seq(|es|, i requires 0 <= i < |es| => Encode(FrameText(es[i])))
  }

  lemma {:induction false} BodyStep(es: seq<Event>)
    requires es != []
    ensures Encode(Body(es)) == Encode(FrameText(es[0])) + (LFLF + Encode(Body(es[1..])))
  {
    BlankLineEncoded();
    EncodeThree(FrameText(es[0]), "\n\n", Body(es[1..]));
  }

  lemma {:induction false} BlankLineEncoded()
    ensures Encode("\n\n") == LFLF
  {
    EncodeConcat("\n", "\n");
    NewlineEncoded();
    assert "\n\n" == "\n" + "\n";
  }

  lemma {:induction false} EncodeThree(a: string, b: string, c: string)
    ensures Encode(a + b + c) == Encode(a) + (Encode(b) + Encode(c))
  {
    Assoc(a, b, c);
    EncodeConcat(a, b + c);
    EncodeConcat(b, c);
  }

  lemma {:induction false} FramesStep(es: seq<Event>)
    requires es != []
    ensures FramesOf(es) == [Encode(FrameText(es[0]))] + FramesOf(es[1..])
  {
  }

  /** One printed frame in front of a body already understood. */
  lemma {:induction false} FrameDrained(e: Event, rest: seq<byte>)
    requires Printable(e) && NoLfCr(rest) && (rest != [] ==> rest[0] == 'e' as int)
    ensures var s := Encode(FrameText(e)) + (LFLF + rest);
            NoLfCr(s) && s[0] == 'e' as int && Drain(s) == Prepend(Encode(FrameText(e)), Drain(rest))
  {
    var a, b := FrameBytes(e);
    FirstFrame(a, b, rest);
    NoLfCrInFrame(a, b, rest);
    DrainStep(Encode(FrameText(e)) + (LFLF + rest), Frame(Encode(FrameText(e)), rest));
  }

  lemma {:induction false} BodyDrained(es: seq<Event>)
    requires forall e :: e in es ==> Printable(e)
    ensures Drain(Encode(Body(es))) == Drained(FramesOf(es), [])
    ensures NoLfCr(Encode(Body(es)))
    ensures Encode(Body(es)) != [] ==> Encode(Body(es))[0] == 'e' as int
    decreases |es|
  {
    if es != [] {
      BodyStep(es);
      BodyDrained(es[1..]);
      FrameDrained(es[0], Encode(Body(es[1..])));
      FramesStep(es);
    }
  }

  /** The last separator is one of line feeds. */
  predicate EndsBlank(a: seq<byte>) {
    |a| >= 2 && a[|a| - 2..] == LFLF
  }

  /** One frame `f` ended by line feeds comes after whatever `a` drains to, exactly if `a` is
      empty or ends with line feeds itself; otherwise it merges with the last frame of `a`. */
  lemma {:induction false} DrainAppended(a: seq<byte>, f: seq<byte>)
    requires Drain(a).rest == [] && f != [] && f[0] != 10 && Find(f + LFLF, LFLF) == Some(|f|)
    ensures Drain(a + (f + LFLF)) == Drained(Drain(a).frames + [f], []) <==> a == [] || EndsBlank(a)
    decreases |a|
  {
    var b := f + LFLF;
    DrainStep(a, NextFrame(a));
    if a == [] {
      assert [] + b == b && b[..|f|] == f && b[|f| + 2..] == [];
      DrainStep(b, Frame(f, []));
    } else if Find(a, LFLF).Some? {
      var n := Find(a, LFLF).value + 2;
      AfterBlank(a, b);
      DrainStep(a + b, Frame(a[..n - 2], a[n..] + b));
      EndAfterBlank(a, n);
      DrainAppended(a[n..], f);
      FirstRemoved(a[..n - 2], Drain(a[n..] + b), Drain(a[n..]).frames, f);
    } else {
      FindAcross(a, f);
      DrainStep(a + b, NextFrame(a + b));
      assert |Drain(a + b).frames[0]| >= |a| > |Drain(a).frames[0]|;
    }
  }

  lemma {:induction false} AfterBlank(a: seq<byte>, b: seq<byte>)
    requires Find(a, LFLF).Some?
    ensures var n := Find(a, LFLF).value + 2;
            n <= |a| && NextFrame(a) == Frame(a[..n - 2], a[n..]) && NextFrame(a + b) == Frame(a[..n - 2], a[n..] + b)
  {
    var n := Find(a, LFLF).value + 2;
    FindGrows(a, b, LFLF);
    assert (a + b)[..n - 2] == a[..n - 2] && (a + b)[n..] == a[n..] + b;
  }

  lemma {:induction false} EndAfterBlank(a: seq<byte>, n: nat)
    requires 2 <= n <= |a| && At(a, LFLF, n - 2) && Drain(a[n..]).rest == []
    ensures EndsBlank(a) <==> a[n..] == [] || EndsBlank(a[n..])
  {
    var rest := a[n..];
    AtIsSlice(a, LFLF, n - 2);
    if |rest| == 1 {
      OneByteStays(rest);
    } else if |rest| >= 2 {
      assert rest[|rest| - 2..] == a[|a| - 2..];
    }
  }

  lemma {:induction false} OneByteStays(b: seq<byte>)
    requires |b| == 1
    ensures Drain(b).rest == b
  {
    assert NextFrame(b) == NoFrame;
    DrainStep(b, NoFrame);
  }

  lemma {:induction false} FirstRemoved(first: seq<byte>, d: Drained, frames: seq<seq<byte>>, f: seq<byte>)
    ensures Prepend(first, d) == Drained([first] + frames + [f], []) <==> d == Drained(frames + [f], [])
  {
    Assoc([first], frames, [f]);
    assert ([first] + d.frames)[1..] == d.frames && ([first] + (frames + [f]))[1..] == frames + [f];
  }

  lemma {:induction false} FindAcross(a: seq<byte>, f: seq<byte>)
    requires Find(a, LFLF) == None && a != [] && f != [] && f[0] != 10
    ensures !EndsBlank(a)
    ensures Find(a + (f + LFLF), LFLF).Some? && Find(a + (f + LFLF), LFLF).value >= |a|
  {
    var s := a + (f + LFLF);
    LineFeedsAt(s, |a| + |f|);
    FindAtMost(s, LFLF, |a| + |f|);
    var q := Find(s, LFLF).value;
    LineFeedsAt(s, q);
    if q + 2 <= |a| {
      LineFeedsAt(a, q);
    }
    if EndsBlank(a) {
      assert a[|a| - 2] == a[|a| - 2..][0] && a[|a| - 1] == a[|a| - 2..][1];
      LineFeedsAt(a, |a| - 2);
    }
  }

  /** What is appended to a text that the parser drains completely is one more frame of it, read
      as the event's payload, exactly if the text is empty or ends with a blank line of line
      feeds, as every printed body does. */
  lemma {:induction false} AppendedFrame(buffer: string, e: Event)
    requires Printable(e) && Drain(Encode(buffer)).rest == []
    ensures Drain(Encode(buffer + (FrameText(e) + "\n\n"))) ==
            Drained(Drain(Encode(buffer)).frames + [Encode(FrameText(e))], [])
            <==> Encode(buffer) == [] || EndsBlank(Encode(buffer))
    ensures PayloadOf(FrameText(e)) == Some(e.payload)
  {
    var f := Encode(FrameText(e));
    FrameTextRead(e);
    FrameFound(e);
    EncodeConcat(buffer, FrameText(e) + "\n\n");
    EncodeConcat(FrameText(e), "\n\n");
    BlankLineEncoded();
    DrainAppended(Encode(buffer), f);
  }

  lemma {:induction false} FrameFound(e: Event)
    requires Printable(e)
    ensures var f := Encode(FrameText(e));
            f != [] && f[0] != 10 && Find(f + LFLF, LFLF) == Some(|f|)
  {
    var a, b := FrameBytes(e);
    var f := a + ([10] + b);
    var s := f + LFLF;
    forall i | 0 <= i < |f| ensures !At(s, LFLF, i) {
      LineFeedsAt(s, i);
      LineFeedsOf(a, b, i);
      if i + 1 < |f| { LineFeedsOf(a, b, i + 1); }
    }
    LineFeedsAt(s, |f|);
    FindIs(s, LFLF, |f|);
  }

  /** The one frame `x` that ends with carriage returns and line feeds, say, merges with a
      frame appended to it. */
  lemma {:induction false} FramesMerge(f: seq<byte>)
    requires f != [] && f[0] != 10 && Find(f + LFLF, LFLF) == Some(|f|)
    ensures var a := ['x' as int] + CRLFCRLF;
            && Drain(a) == Drained([['x' as int]], [])
            && Drain(a + (f + LFLF)) != Drained([['x' as int], f], [])
  {
    var x := ['x' as int];
    var a: seq<byte> := ['x' as int, 13, 10, 13, 10];
    assert a == x + CRLFCRLF;
    forall i: nat ensures !At(a, LFLF, i) {
      LineFeedsAt(a, i);
    }
    AtIsSlice(a, CRLFCRLF, 0);
    AtIsSlice(a, CRLFCRLF, 1);
    assert a[0..4][0] == 'x' as int && a[1..5] == CRLFCRLF;
    FindIs(a, CRLFCRLF, 1);
    assert a[..1] == x && a[5..] == [];
    assert Find(a, LFLF) == None;
    DrainStep(a, Frame(x, []));
    DrainStep([], NoFrame);
    DrainAppended(a, f);
    assert a[3..][0] == 13 && [x] + [f] == [x, f];
  }

  lemma {:induction false} BodyEndsBlank(es: seq<Event>)
    requires es != []
    ensures EndsBlank(Encode(Body(es)))
    decreases |es|
  {
    BodyStep(es);
    if |es| > 1 {
      BodyEndsBlank(es[1..]);
    }
  }

  lemma {:induction false} BodyRead<E>(c: Context<E>, es: seq<Event>, events: seq<E>)
    requires |events| == |es|
    requires forall i :: 0 <= i < |es| ==> Printable(es[i]) && c.decode(es[i].payload) == Ok(events[i])
    ensures ReadFrames(c, FramesOf(es)).events == Ok(events)
    decreases |es|
  {
    if es != [] {
      FrameRead(c, es[0], events[0]);
      FramesStep(es);
      ReadStep(c, FramesOf(es));
      assert FramesOf(es)[1..] == FramesOf(es[1..]);
      BodyRead(c, es[1..], events[1..]);
      assert events == [events[0]] + events[1..];
    }
  }

  lemma {:induction false} FrameRead<E>(c: Context<E>, e: Event, event: E)
    requires Printable(e) && c.decode(e.payload) == Ok(event)
    ensures FrameEvent(c, Encode(FrameText(e))) == Ok(Some(event))
  {
    FrameTextRead(e);
    LossyOfEncode(FrameText(e));
  }

  /** Printer and parser undo each other: whatever the chunks in which the printed
      bytes arrive, even cut inside a character or a separator, the parser gives back
      the events of the payloads, in order, and keeps nothing. */
  lemma {:induction false} PrintThenParse<E>(c: Context<E>, es: seq<Event>, events: seq<E>, chunks: seq<seq<byte>>)
    requires |events| == |es|
    requires forall i :: 0 <= i < |es| ==> Printable(es[i]) && c.decode(es[i].payload) == Ok(events[i])
    requires chunks != [] && Concat(chunks) == Encode(Body(es))
    ensures FeedEvents(c, [], chunks) == Ok((events, []))
  {
    BodyDrained(es);
    NoLfCrIsOrdered(Encode(Body(es)));
    ChunkIndependence(Encode(Body(es)));
    BodyRead(c, es, events);
    FeedEventsIsRead(c, [], chunks);
  }

  /** Of events with one-line names, the printed body is split into one frame for each, and
      each is read as its payload, exactly if all are printable. */
  lemma {:induction false} SurviveExactly(es: seq<Event>)
    requires forall e :: e in es ==> '\n' !in e.name
    ensures (forall e :: e in es ==> Printable(e)) <==>
            && Drain(Encode(Body(es))) == Drained(FramesOf(es), [])
            && forall e :: e in es ==> PayloadOf(FrameText(e)) == Some(e.payload)
  {
    forall e | e in es ensures PayloadOf(FrameText(e)) == Some(e.payload) <==> Printable(e) {
      FrameTextRead(e);
    }
    if forall e :: e in es ==> Printable(e) {
      BodyDrained(es);
    }
  }

  /** Two printed events of which the second does not decode: together in one chunk neither
      is delivered, in two chunks the first is. */
  lemma {:induction false} GoodEventIsLost<E>(c: Context<E>, good: Event, bad: Event, event: E)
    requires Printable(good) && Printable(bad)
    requires c.decode(good.payload) == Ok(event) && c.decode(bad.payload).Err?
    ensures var a, b := Encode(Body([good])), Encode(Body([bad]));
            && a + b == Encode(Body([good, bad]))
            && Delivered(c, [], [a + b]) == [] && Delivered(c, [], [a, b]) == [event]
  {
    var f, g := Encode(FrameText(good)), Encode(FrameText(bad));
    TwoBodies(good, bad);
    OneDrained(good);
    OneDrained(bad);
    BodyDrained([good, bad]);
    assert FramesOf([good, bad]) == [f, g];
    FrameRead(c, good, event);
    FrameTextRead(bad);
    LossyOfEncode(FrameText(bad));
    ErrorLosesTheChunk(c, Encode(Body([good])), Encode(Body([bad])), f, g, event);
  }

  lemma {:induction false} OneDrained(e: Event)
    requires Printable(e)
    ensures Drain(Encode(Body([e]))) == Drained([Encode(FrameText(e))], [])
  {
    BodyDrained([e]);
    assert FramesOf([e]) == [Encode(FrameText(e))];
  }

  lemma {:induction false} TwoBodies(a: Event, b: Event)
    ensures Encode(Body([a, b])) == Encode(Body([a])) + Encode(Body([b]))
  {
    var frame := FrameText(b) + "\n\n";
    BodyAppend([a], b);
    BodyAppend([], b);
    assert [a] + [b] == [a, b] && [] + [b] == [b];
    assert Body([]) == "" && "" + frame == frame;
    EncodeConcat(Body([a]), Body([b]));
  }

  function OnlyX(payload: string): Result<int, string> {
    if payload == "x" then Ok(0) else Err("not x")
  }

  /** With a decoder that knows only the payload `x`, say. */
  lemma {:induction false} XIsLost()
    ensures var c := Context(OnlyX, "", "");
            var a, b := Encode(Body([Event("e", "x")])), Encode(Body([Event("e", "y")]));
            Delivered(c, [], [a + b]) == [] && Delivered(c, [], [a, b]) == [0]
  {
    TrimOfTrimmed("e");
    GoodEventIsLost(Context(OnlyX, "", ""), Event("e", "x"), Event("e", "y"), 0);
  }
}
