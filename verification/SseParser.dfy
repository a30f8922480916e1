/** The reading of one frame and the parser object of `api/src/sse.rs`. The decoding
    of a payload as JSON is a parameter of the parser. */
module SseParser {
  import opened Text
  import opened Utf8
  import opened Sse

  /** `ApiError::json_deserialize`: the context and the payload that did not decode. */
  datatype PayloadError = PayloadError(provider: string, model: string, payload: string, cause: string)

  // ---------- One frame ----------

  /** What a line is to the parser; the tests are made in this order. */
  datatype Line = Comment | EventLine(name: string) | DataLine(data: string) | Other

  function Classify(line: string): Line {
    if ":" <= line then Comment
    else match StripPrefix(line, "event:")
      case Some(name) => EventLine(Trim(name))
      case None =>
        match StripPrefix(line, "data:")
        case Some(data) => DataLine(TrimStart(data))
        case None => Other
  }

  function ClassifyAll(lines: seq<string>): (r: seq<Line>)
    ensures |r| == |lines|
  {
    seq(|lines|, i requires 0 <= i < |lines| => Classify(lines[i]))
  }

  /** The event name in force after the lines: the last one given. */
  function EventName(lines: seq<Line>): Option<string> {
    if lines == [] then None
    else if lines[|lines| - 1].EventLine? then Some(lines[|lines| - 1].name)
    else EventName(lines[..|lines| - 1])
  }

  function DataLines(lines: seq<Line>): seq<string> {
    if lines == [] then []
    else DataLines(lines[..|lines| - 1]) + if lines[|lines| - 1].DataLine? then [lines[|lines| - 1].data] else []
  }

  lemma {:induction false} LinesStep(lines: seq<Line>, i: nat)
    requires i < |lines|
    ensures EventName(lines[..i + 1]) == if lines[i].EventLine? then Some(lines[i].name) else EventName(lines[..i])
    ensures DataLines(lines[..i + 1]) ==
            if lines[i].DataLine? then DataLines(lines[..i]) + [lines[i].data] else DataLines(lines[..i])
  {
    assert lines[..i + 1][..i] == lines[..i];
  }

  lemma {:induction false} EventLineClassified(s: string)
    ensures Classify("event:" + s) == EventLine(Trim(s))
  {
    StripOwnPrefix("event:", s);
    StripOtherPrefix("event:" + s, ":");
  }

  lemma {:induction false} DataLineClassified(s: string)
    ensures Classify("data:" + s) == DataLine(TrimStart(s))
  {
    StripOwnPrefix("data:", s);
    StripOtherPrefix("data:" + s, "event:");
    StripOtherPrefix("data:" + s, ":");
  }

  lemma {:induction false} DataAfter(first: Line, lines: seq<Line>)
    ensures DataLines([first] + lines) == (if first.DataLine? then [first.data] else []) + DataLines(lines)
    decreases |lines|
  {
    var all := [first] + lines;
    if lines == [] {
      assert all == [first] && all[..0] == [];
    } else {
      assert all[..|all| - 1] == [first] + lines[..|lines| - 1];
      DataAfter(first, lines[..|lines| - 1]);
    }
  }

  /** The payload that a frame's lines carry, if they carry one to decode. */
  function PayloadOfLines(lines: seq<Line>): Option<string> {
    var payload := Join(DataLines(lines), "\n");
    if EventName(lines) == Some("ping") || DataLines(lines) == [] || payload == "[DONE]" then None
    else Some(payload)
  }

  function PayloadOf(frame: string): Option<string> {
    PayloadOfLines(ClassifyAll(Lines(Trim(frame))))
  }

  /** What decoding makes of a frame. */
  function Decoded<E>(frame: string, decode: string -> Result<E, string>, provider: string, model: string)
    : Result<Option<E>, PayloadError>
  {
    match PayloadOf(frame)
    case None => Ok(None)
    case Some(payload) =>
      match decode(payload)
      case Ok(event) => Ok(Some(event))
      case Err(cause) => Err(PayloadError(provider, model, payload, cause))
  }

  /** `parse_frame_with_provider`: the loop over the lines of a trimmed frame. */
  method ParseFrame<E>(frame: string, decode: string -> Result<E, string>, provider: string, model: string)
    returns (r: Result<Option<E>, PayloadError>)
    ensures r == Decoded(frame, decode, provider, model)
  {
    var trimmed := Trim(frame);
    if trimmed == "" {
      assert ClassifyAll(Lines(trimmed)) == [];
      return Ok(None);
    }
    var lines := Lines(trimmed);
    ghost var classified := ClassifyAll(lines);
    var eventName: Option<string> := None;
    var dataLines: seq<string> := [];
    for i := 0 to |lines|
      invariant eventName == EventName(classified[..i])
      invariant dataLines == DataLines(classified[..i])
    {
      LinesStep(classified, i);
      var line := lines[i];
      if ":" <= line {
        continue;
      }
      var name := StripPrefix(line, "event:");
      if name.Some? {
        eventName := Some(Trim(name.value));
        continue;
      }
      var data := StripPrefix(line, "data:");
      if data.Some? {
        dataLines := dataLines + [TrimStart(data.value)];
      }
    }
    assert classified[..|lines|] == classified;
    if eventName == Some("ping") {
      return Ok(None);
    }
    if dataLines == [] {
      return Ok(None);
    }
    var payload := Join(dataLines, "\n");
    if payload == "[DONE]" {
      return Ok(None);
    }
    var event := decode(payload);
    r := match event
      case Ok(e) => Ok(Some(e))
      case Err(cause) => Err(PayloadError(provider, model, payload, cause));
  }

  // ---------- One push ----------

  /** How a parser decodes: the JSON decoder and the context for its errors. */
  datatype Context<!E> = Context(decode: string -> Result<E, string>, provider: string, model: string)

  function FrameEvent<E>(c: Context<E>, frame: seq<byte>): Result<Option<E>, PayloadError> {
    Decoded(Lossy(frame), c.decode, c.provider, c.model)
  }

  /** What a push makes of a run of frames: the events in order, or the error of the
      first frame that does not decode; and how many frames it takes, all of them or
      those up to that one. */
  datatype Read<+E> = Read(events: Result<seq<E>, PayloadError>, taken: nat)

  function ReadFrames<E>(c: Context<E>, frames: seq<seq<byte>>): (r: Read<E>)
    ensures r.taken <= |frames|
    decreases |frames|, 2
  {
    if frames == [] then Read(Ok([]), 0) else ReadSome(c, frames)
  }

  function ReadSome<E>(c: Context<E>, frames: seq<seq<byte>>): (r: Read<E>)
    requires frames != []
    ensures r.taken <= |frames|
    decreases |frames|, 1
  {
    ReadAfter(c, FrameEvent(c, frames[0]), frames[1..])
  }

  function ReadAfter<E>(c: Context<E>, first: Result<Option<E>, PayloadError>, frames: seq<seq<byte>>): (r: Read<E>)
    ensures r.taken <= |frames| + 1
    decreases |frames| + 1, 0
  {
    match first
    case Err(e) => Read(Err(e), 1)
    case Ok(event) => AddEvent(event, ReadFrames(c, frames))
  }

  /** One more frame in front. */
  function AddEvent<E>(event: Option<E>, r: Read<E>): Read<E> {
    Read(match r.events
         case Ok(events) => Ok((if event.Some? then [event.value] else []) + events)
         case Err(e) => Err(e), r.taken + 1)
  }

  lemma {:induction false} ReadStep<E>(c: Context<E>, frames: seq<seq<byte>>)
    requires frames != []
    ensures ReadFrames(c, frames) ==
            match FrameEvent(c, frames[0])
            case Err(e) => Read(Err(e), 1)
            case Ok(event) => AddEvent(event, ReadFrames(c, frames[1..]))
  {
    assert ReadFrames(c, frames) == ReadSome(c, frames);
    assert ReadSome(c, frames) == ReadAfter(c, FrameEvent(c, frames[0]), frames[1..]);
  }

  /** A push that left `buffer` to be read answered `r` and left `after`: the answer is
      that of the buffer's frames, in order, and what stays is what follows the frames
      taken, so that a later push goes on with the very next one. */
  ghost predicate Pushed<E(!new)>(c: Context<E>, buffer: seq<byte>, r: Result<seq<E>, PayloadError>, after: seq<byte>) {
    var d := Drain(buffer);
    var read := ReadFrames(c, d.frames);
    && r == read.events
    && IsSuffix(after, buffer)
    && Drain(after) == Drained(d.frames[read.taken..], d.rest)
    && (r.Ok? ==> after == d.rest)
  }

  /** The answers of pushes made one after the other, put together; an error ends them. */
  function FeedEvents<E>(c: Context<E>, buffer: seq<byte>, chunks: seq<seq<byte>>)
    : Result<(seq<E>, seq<byte>), PayloadError>
    decreases |chunks|
  {
    if chunks == [] then Ok(([], buffer))
    else
      var d := Drain(buffer + chunks[0]);
      match ReadFrames(c, d.frames).events
      case Err(e) => Err(e)
      case Ok(events) =>
        match FeedEvents(c, d.rest, chunks[1..])
        case Err(e) => Err(e)
        case Ok((more, rest)) => Ok((events + more, rest))
  }

  /** The answer of `first` followed by that of `more`; an error ends it. */
  function Joined<E>(first: Result<seq<E>, PayloadError>, more: Result<seq<E>, PayloadError>)
    : Result<seq<E>, PayloadError>
  {
    match first
    case Err(e) => Err(e)
    case Ok(events) =>
      match more
      case Err(e) => Err(e)
      case Ok(others) => Ok(events + others)
  }

  lemma {:induction false} JoinedAssociates<E>(a: Result<seq<E>, PayloadError>, b: Result<seq<E>, PayloadError>,
                                               c: Result<seq<E>, PayloadError>)
    ensures Joined(Joined(a, b), c) == Joined(a, Joined(b, c))
  {
    if a.Ok? && b.Ok? && c.Ok? {
      Assoc(a.value, b.value, c.value);
    }
  }

  function EventsOf<E>(c: Context<E>, frames: seq<seq<byte>>): Result<seq<E>, PayloadError> {
    ReadFrames(c, frames).events
  }

  /** The answer of one frame. */
  function OneEvent<E>(c: Context<E>, frame: seq<byte>): Result<seq<E>, PayloadError> {
    match FrameEvent(c, frame)
    case Err(e) => Err(e)
    case Ok(event) => Ok(if event.Some? then [event.value] else [])
  }

  lemma {:induction false} EventsStep<E>(c: Context<E>, frames: seq<seq<byte>>)
    requires frames != []
    ensures EventsOf(c, frames) == Joined(OneEvent(c, frames[0]), EventsOf(c, frames[1..]))
  {
    ReadStep(c, frames);
  }

  lemma {:induction false} ReadConcat<E>(c: Context<E>, f: seq<seq<byte>>, g: seq<seq<byte>>)
    ensures EventsOf(c, f + g) == Joined(EventsOf(c, f), EventsOf(c, g))
    decreases |f|
  {
    if f == [] {
      assert f + g == g;
      if EventsOf(c, g).Ok? {
        assert [] + EventsOf(c, g).value == EventsOf(c, g).value;
      }
    } else {
      assert (f + g)[1..] == f[1..] + g && (f + g)[0] == f[0];
      EventsStep(c, f + g);
      EventsStep(c, f);
      ReadConcat(c, f[1..], g);
      JoinedAssociates(OneEvent(c, f[0]), EventsOf(c, f[1..]), EventsOf(c, g));
    }
  }

  /** The pushes together answer with the events of all frames, or with the error of the
      first one that does not decode, wherever the stream was cut. */
  lemma {:induction false} FeedEventsIsRead<E>(c: Context<E>, buffer: seq<byte>, chunks: seq<seq<byte>>)
    ensures FeedEvents(c, buffer, chunks) ==
            match EventsOf(c, Feed(buffer, chunks).frames)
            case Ok(events) => Ok((events, Feed(buffer, chunks).rest))
            case Err(e) => Err(e)
    decreases |chunks|
  {
    if chunks != [] {
      var d := Drain(buffer + chunks[0]);
      var others := Feed(d.rest, chunks[1..]);
      ReadConcat(c, d.frames, others.frames);
      FeedEventsIsRead(c, d.rest, chunks[1..]);
    }
  }

  // ---------- What an error loses ----------

  /** The events answered by the pushes before the first one that fails. */
  function Delivered<E>(c: Context<E>, buffer: seq<byte>, chunks: seq<seq<byte>>): seq<E>
    decreases |chunks|
  {
    if chunks == [] then []
    else
      var d := Drain(buffer + chunks[0]);
      match EventsOf(c, d.frames)
      case Err(_) => []
      case Ok(events) => events + Delivered(c, d.rest, chunks[1..])
  }

  /** How many frames these pushes take. */
  function FramesBefore<E>(c: Context<E>, buffer: seq<byte>, chunks: seq<seq<byte>>): nat
    decreases |chunks|
  {
    if chunks == [] then 0
    else
      var d := Drain(buffer + chunks[0]);
      if EventsOf(c, d.frames).Err? then 0 else |d.frames| + FramesBefore(c, d.rest, chunks[1..])
  }

  lemma {:induction false} DeliveredIsRead<E>(c: Context<E>, buffer: seq<byte>, chunks: seq<seq<byte>>)
    ensures var all, k := Feed(buffer, chunks).frames, FramesBefore(c, buffer, chunks);
            && k <= |all|
            && EventsOf(c, all[..k]) == Ok(Delivered(c, buffer, chunks))
            && (EventsOf(c, all).Ok? ==> k == |all|)
    decreases |chunks|
  {
    if chunks != [] {
      var d := Drain(buffer + chunks[0]);
      var others := Feed(d.rest, chunks[1..]).frames;
      ReadConcat(c, d.frames, others);
      if EventsOf(c, d.frames).Ok? {
        DeliveredIsRead(c, d.rest, chunks[1..]);
        var k := FramesBefore(c, d.rest, chunks[1..]);
        assert (d.frames + others)[..|d.frames| + k] == d.frames + others[..k];
        ReadConcat(c, d.frames, others[..k]);
      }
    }
  }

  lemma {:induction false} ReadUpToError<E>(c: Context<E>, frames: seq<seq<byte>>)
    requires EventsOf(c, frames).Err?
    ensures var n := ReadFrames(c, frames).taken;
            && 0 < n <= |frames|
            && EventsOf(c, frames[..n - 1]).Ok?
            && FrameEvent(c, frames[n - 1]) == Err(EventsOf(c, frames).error)
    decreases |frames|
  {
    ReadStep(c, frames);
    if FrameEvent(c, frames[0]).Ok? {
      ReadUpToError(c, frames[1..]);
      var n := ReadFrames(c, frames[1..]).taken;
      assert frames[..n][1..] == frames[1..][..n - 1] && frames[..n][0] == frames[0];
      EventsStep(c, frames[..n]);
    } else {
      assert frames[..0] == [];
    }
  }

  /** Which events an error loses: the frames before the bad one decode; the first of them
      were delivered by earlier pushes, and the events of the others, which came in the same
      push as the bad one, are dropped. */
  lemma {:induction false} LostExactly<E>(c: Context<E>, buffer: seq<byte>, chunks: seq<seq<byte>>)
    returns (k: nat, bad: nat, lost: seq<E>)
    requires FeedEvents(c, buffer, chunks).Err?
    ensures var all := Feed(buffer, chunks).frames;
            && k == FramesBefore(c, buffer, chunks) <= bad < |all|
            && FrameEvent(c, all[bad]) == Err(FeedEvents(c, buffer, chunks).error)
            && EventsOf(c, all[..k]) == Ok(Delivered(c, buffer, chunks))
            && EventsOf(c, all[k..bad]) == Ok(lost)
            && EventsOf(c, all[..bad]) == Ok(Delivered(c, buffer, chunks) + lost)
  {
    var all := Feed(buffer, chunks).frames;
    FeedEventsIsRead(c, buffer, chunks);
    DeliveredIsRead(c, buffer, chunks);
    ReadUpToError(c, all);
    k, bad := FramesBefore(c, buffer, chunks), ReadFrames(c, all).taken - 1;
    if bad < k {
      GoodFrames(c, all[..k], bad);
    }
    assert all[..bad] == all[..k] + all[k..bad];
    ReadConcat(c, all[..k], all[k..bad]);
    lost := EventsOf(c, all[k..bad]).value;
  }

  lemma {:induction false} GoodFrames<E>(c: Context<E>, frames: seq<seq<byte>>, i: nat)
    requires EventsOf(c, frames).Ok? && i < |frames|
    ensures FrameEvent(c, frames[i]).Ok?
    decreases i
  {
    ReadStep(c, frames);
    if i > 0 {
      GoodFrames(c, frames[1..], i - 1);
    }
  }

  /** So what is delivered depends on the chunking: a good frame that arrives together with
      a bad one is lost, and one that arrives before it is not. */
  lemma {:induction false} ErrorLosesTheChunk<E>(c: Context<E>, a: seq<byte>, b: seq<byte>, f: seq<byte>,
                                                 g: seq<byte>, event: E)
    requires Drain(a) == Drained([f], []) && Drain(b) == Drained([g], []) && Drain(a + b) == Drained([f, g], [])
    requires FrameEvent(c, f) == Ok(Some(event)) && FrameEvent(c, g).Err?
    ensures Delivered(c, [], [a + b]) == [] && Delivered(c, [], [a, b]) == [event]
  {
    assert [] + (a + b) == a + b && [] + a == a && [] + b == b;
    assert [f, g][1..] == [g] && [f][1..] == [] && [g][1..] == [] && [a, b][1..] == [b] && [a + b][1..] == [];
    ReadStep(c, [f, g]);
    ReadStep(c, [g]);
    ReadStep(c, [f]);
    assert Delivered(c, [], [b]) == [];
  }

  /** `events` were collected from the first `n` frames. */
  ghost predicate Progress<E(!new)>(c: Context<E>, all: seq<seq<byte>>, n: nat, events: seq<E>) {
    && n <= |all|
    && var more := ReadFrames(c, all[n..]);
       ReadFrames(c, all) == Read(match more.events
                                  case Ok(rest) => Ok(events + rest)
                                  case Err(e) => Err(e), n + more.taken)
  }

  lemma {:induction false} ProgressStarts<E(!new)>(c: Context<E>, all: seq<seq<byte>>)
    ensures Progress(c, all, 0, [])
  {
    assert all[0..] == all;
    match ReadFrames(c, all).events
    case Ok(more) => assert [] + more == more;
    case Err(_) =>
  }

  lemma {:induction false} ProgressStep<E(!new)>(c: Context<E>, all: seq<seq<byte>>, n: nat, events: seq<E>)
    requires Progress(c, all, n, events) && n < |all|
    ensures match FrameEvent(c, all[n])
            case Err(e) => ReadFrames(c, all) == Read(Err(e), n + 1)
            case Ok(None) => Progress(c, all, n + 1, events)
            case Ok(Some(event)) => Progress(c, all, n + 1, events + [event])
  {
    assert all[n..][1..] == all[n + 1..];
    ReadStep(c, all[n..]);
    if FrameEvent(c, all[n]).Ok? {
      var first := if FrameEvent(c, all[n]).value.Some? then [FrameEvent(c, all[n]).value.value] else [];
      var more := ReadFrames(c, all[n + 1..]).events;
      if more.Ok? {
        Assoc(events, first, more.value);
        assert events + [] == events;
      }
    }
  }

  lemma {:induction false} ProgressEnds<E(!new)>(c: Context<E>, all: seq<seq<byte>>, n: nat, events: seq<E>)
    requires Progress(c, all, n, events) && n == |all|
    ensures ReadFrames(c, all) == Read(Ok(events), n)
  {
    assert all[n..] == [] && events + [] == events;
  }

  /** A push that began with `start` has taken `n` frames, holds their events and has `buffer`
      left. */
  ghost predicate Pushing<E(!new)>(c: Context<E>, start: seq<byte>, buffer: seq<byte>, n: nat, events: seq<E>) {
    var all := Drain(start);
    && Progress(c, all.frames, n, events)
    && Drain(buffer) == Drained(all.frames[n..], all.rest) && IsSuffix(buffer, start)
  }

  lemma {:induction false} PushEnds<E(!new)>(c: Context<E>, start: seq<byte>, buffer: seq<byte>, n: nat,
                                             events: seq<E>)
    requires Pushing(c, start, buffer, n, events) && NextFrame(buffer) == NoFrame
    ensures Pushed(c, start, Ok(events), buffer)
  {
    DrainStep(buffer, NoFrame);
    ProgressEnds(c, Drain(start).frames, n, events);
  }

  /** One more frame taken: an error ends the push, and anything else lets it go on. */
  lemma {:induction false} PushTakes<E(!new)>(c: Context<E>, start: seq<byte>, before: seq<byte>, frame: seq<byte>,
                                              buffer: seq<byte>, n: nat, events: seq<E>)
    requires Pushing(c, start, before, n, events) && NextFrame(before) == Frame(frame, buffer)
    ensures match FrameEvent(c, frame)
            case Err(e) => Pushed(c, start, Err(e), buffer)
            case Ok(None) => Pushing(c, start, buffer, n + 1, events)
            case Ok(Some(event)) => Pushing(c, start, buffer, n + 1, events + [event])
  {
    var all := Drain(start);
    DrainStep(before, Frame(frame, buffer));
    SuffixTransitive(buffer, before, start);
    assert all.frames[n..][0] == frame && all.frames[n..][1..] == all.frames[n + 1..];
    assert Drain(buffer).frames == all.frames[n..][1..];
    ProgressStep(c, all.frames, n, events);
  }

  class Parser<E(!new)> {
    var buffer: seq<byte>
    const context: Context<E>

    constructor (context: Context<E>)
      ensures buffer == [] && this.context == context
    {
      this.context := context;
      buffer := [];
    }

    /** `next_frame`, which drains the frame and its separator from the buffer. */
    method TakeFrame() returns (frame: Option<seq<byte>>)
      modifies this
      ensures frame.None? ==> NextFrame(old(buffer)) == NoFrame && buffer == old(buffer)
      ensures frame.Some? ==> NextFrame(old(buffer)) == Frame(frame.value, buffer)
    {
      match NextFrame(buffer) {
        case NoFrame => frame := None;
        case Frame(content, rest) =>
          buffer := rest;
          frame := Some(content);
      }
    }

    method Push(chunk: seq<byte>) returns (r: Result<seq<E>, PayloadError>)
      modifies this
      ensures Pushed(context, old(buffer) + chunk, r, buffer)
    {
      buffer := buffer + chunk;
      ghost var start := buffer;
      ghost var n := 0;
      var events: seq<E> := [];
      ProgressStarts(context, Drain(start).frames);
      while true
        invariant Pushing(context, start, buffer, n, events)
        decreases |buffer|
      {
        ghost var before := buffer;
        var frame := TakeFrame();
        if frame.None? {
          PushEnds(context, start, buffer, n, events);
          return Ok(events);
        }
        PushTakes(context, start, before, frame.value, buffer, n, events);
        n := n + 1;
        var event := ParseFrame(Lossy(frame.value), context.decode, context.provider, context.model);
        if event.Err? {
          return Err(event.error);
        }
        if event.value.Some? {
          events := events + [event.value.value];
        }
      }
    }

    /** `finish`: the unfinished rest read as a last frame, without a character that
        the end of the stream cut off. */
    method Finish() returns (r: Result<seq<E>, PayloadError>)
      modifies this
      ensures buffer == []
      ensures old(buffer) == [] ==> r == Ok([])
      ensures old(buffer) != [] ==>
                r == match Decoded(DecodeComplete(old(buffer)), context.decode, context.provider, context.model)
                     case Ok(None) => Ok([])
                     case Ok(Some(event)) => Ok([event])
                     case Err(e) => Err(e)
    {
      if buffer == [] {
        return Ok([]);
      }
      var trailing := buffer;
      buffer := [];
      var event := ParseFrame(DecodeComplete(trailing), context.decode, context.provider, context.model);
      r := match event
        case Ok(None) => Ok([])
        case Ok(Some(e)) => Ok([e])
        case Err(e) => Err(e);
    }
  }
}
