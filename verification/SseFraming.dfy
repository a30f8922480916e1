/** What is a frame of a stream, and what a push leaves, said by the separators alone (WHATWG
    HTML, section 9.2.5, but with the preference of the code for line feeds). */
module SseFraming {
  import opened Text
  import opened Sse

  /** The separator `sep` stands in `buffer` after `content` and nowhere before. */
  ghost predicate FirstAfter(buffer: seq<byte>, content: seq<byte>, sep: seq<byte>, rest: seq<byte>) {
    && buffer == content + (sep + rest)
    && forall earlier, more :: buffer == earlier + (sep + more) ==> |content| <= |earlier|
  }

  lemma {:induction false} FindsFirst(buffer: seq<byte>, sep: seq<byte>)
    requires Contains(buffer, sep)
    ensures Find(buffer, sep).Some?
    ensures var p := Find(buffer, sep).value;
            p + |sep| <= |buffer| && FirstAfter(buffer, buffer[..p], sep, buffer[p + |sep|..])
  {
    FindsContained(buffer, sep);
    forall earlier, more | buffer == earlier + (sep + more) ensures At(buffer, sep, |earlier|) {
      AtBetween(earlier, sep, more);
    }
  }

  /** The frame ends before the first two line feeds in a row; only where there are none, before
      the first two pairs of carriage return and line feed. The separator goes with it. */
  ghost predicate IsNext(buffer: seq<byte>, content: seq<byte>, rest: seq<byte>) {
    || FirstAfter(buffer, content, [10, 10], rest)
    || (!Contains(buffer, [10, 10]) && FirstAfter(buffer, content, [13, 10, 13, 10], rest))
  }

  lemma {:induction false} NextExactly(buffer: seq<byte>, content: seq<byte>, rest: seq<byte>)
    ensures NextFrame(buffer) == Frame(content, rest) <==> IsNext(buffer, content, rest)
    ensures NextFrame(buffer) == NoFrame <==> !Contains(buffer, [10, 10]) && !Contains(buffer, [13, 10, 13, 10])
  {
    FindsContained(buffer, LFLF);
    FindsContained(buffer, CRLFCRLF);
    if Contains(buffer, LFLF) {
      OneFirst(buffer, content, LFLF, rest);
    } else if Contains(buffer, CRLFCRLF) {
      OneFirst(buffer, content, CRLFCRLF, rest);
    }
  }

  lemma {:induction false} OneFirst(buffer: seq<byte>, content: seq<byte>, sep: seq<byte>, rest: seq<byte>)
    requires Contains(buffer, sep)
    ensures Find(buffer, sep).Some? && Find(buffer, sep).value + |sep| <= |buffer|
    ensures var p := Find(buffer, sep).value;
            FirstAfter(buffer, content, sep, rest) <==> content == buffer[..p] && rest == buffer[p + |sep|..]
  {
    FindsFirst(buffer, sep);
    var p := Find(buffer, sep).value;
    if FirstAfter(buffer, content, sep, rest) {
      assert FirstAfter(buffer, buffer[..p], sep, buffer[p + |sep|..]);
      assert |content| == p;
      assert content == buffer[..p] && rest == buffer[p + |sep|..];
    }
  }

  /** The buffer is the frames, each with its separator, and bytes that hold none. */
  ghost predicate Framed(buffer: seq<byte>, frames: seq<seq<byte>>, rest: seq<byte>)
    decreases |frames|
  {
    if frames == [] then rest == buffer && !Contains(buffer, [10, 10]) && !Contains(buffer, [13, 10, 13, 10])
    else exists more :: IsNext(buffer, frames[0], more) && Framed(more, frames[1..], rest)
  }

  lemma {:induction false} DrainedExactly(buffer: seq<byte>, frames: seq<seq<byte>>, rest: seq<byte>)
    ensures Drain(buffer) == Drained(frames, rest) <==> Framed(buffer, frames, rest)
    decreases |frames|
  {
    var split := NextFrame(buffer);
    DrainStep(buffer, split);
    match split
    case NoFrame => NoneFramed(buffer, frames, rest);
    case Frame(content, more) =>
      OneFramed(buffer, content, more, frames, rest);
      if frames != [] {
        DrainedExactly(more, frames[1..], rest);
        PrependIs(content, Drain(more), frames, rest);
      }
  }

  lemma {:induction false} PrependIs(content: seq<byte>, d: Drained, frames: seq<seq<byte>>, rest: seq<byte>)
    requires frames != []
    ensures Prepend(content, d) == Drained(frames, rest) <==>
            content == frames[0] && d == Drained(frames[1..], rest)
  {
    assert frames == [frames[0]] + frames[1..];
  }

  lemma {:induction false} NoneFramed(buffer: seq<byte>, frames: seq<seq<byte>>, rest: seq<byte>)
    requires NextFrame(buffer) == NoFrame
    ensures Framed(buffer, frames, rest) <==> frames == [] && rest == buffer
  {
    NextExactly(buffer, [], []);
    if frames != [] {
      forall more ensures !IsNext(buffer, frames[0], more) {
        NextExactly(buffer, frames[0], more);
      }
    }
  }

  lemma {:induction false} OneFramed(buffer: seq<byte>, content: seq<byte>, more: seq<byte>, frames: seq<seq<byte>>,
                                     rest: seq<byte>)
    requires NextFrame(buffer) == Frame(content, more)
    ensures Framed(buffer, frames, rest) <==>
            frames != [] && content == frames[0] && Framed(more, frames[1..], rest)
  {
    NextExactly(buffer, content, more);
    if frames != [] {
      forall other | IsNext(buffer, frames[0], other) ensures other == more && content == frames[0] {
        NextExactly(buffer, frames[0], other);
      }
    }
  }
}
