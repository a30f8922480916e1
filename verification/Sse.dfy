/** Model of `api/src/sse.rs`: framing of an event stream that arrives in chunks,
    the reading of one frame, and the parser object that joins the two. */
module Sse {
  import opened Text

  const LFLF: seq<byte> := [10, 10]
  const CRLFCRLF: seq<byte> := [13, 10, 13, 10]

  // ---------- Framing ----------

  datatype Split = NoFrame | Frame(content: seq<byte>, rest: seq<byte>)

  predicate IsSuffix(a: seq<byte>, b: seq<byte>) {
    |a| <= |b| && a == b[|b| - |a|..]
  }

  lemma {:induction false} SuffixTransitive(a: seq<byte>, b: seq<byte>, c: seq<byte>)
    requires IsSuffix(a, b) && IsSuffix(b, c)
    ensures IsSuffix(a, c)
  {
  }

  /** `next_frame`: the first blank line made of line feeds, wherever it is; only
      without one, the first made of carriage returns and line feeds. */
  function NextFrame(buffer: seq<byte>): (r: Split)
    ensures r.Frame? ==> |r.rest| < |buffer| && IsSuffix(r.rest, buffer)
  {
    match Find(buffer, LFLF)
    case Some(p) => Frame(buffer[..p], buffer[p + 2..])
    case None =>
      match Find(buffer, CRLFCRLF)
      case Some(p) => Frame(buffer[..p], buffer[p + 4..])
      case None => NoFrame
  }

  /** Frames taken from a buffer, and the bytes that stay in it. */
  datatype Drained = Drained(frames: seq<seq<byte>>, rest: seq<byte>)

  function Prepend(frame: seq<byte>, d: Drained): Drained {
    Drained([frame] + d.frames, d.rest)
  }

  /** The loop of `push` without the reading of frames. */
  function Drain(buffer: seq<byte>): Drained
    decreases |buffer|, 2
  {
    if buffer == [] then Drained([], []) else DrainSome(buffer)
  }

  function DrainSome(buffer: seq<byte>): Drained
    decreases |buffer|, 1
  {
    DrainSplit(buffer, NextFrame(buffer))
  }

  function DrainSplit(buffer: seq<byte>, split: Split): Drained
    requires split.Frame? ==> |split.rest| < |buffer|
    decreases |buffer|, 0
  {
    match split
    case NoFrame => Drained([], buffer)
    case Frame(content, rest) => Prepend(content, Drain(rest))
  }

  lemma {:induction false} DrainStep(b: seq<byte>, split: Split)
    requires NextFrame(b) == split
    ensures Drain(b) == DrainSplit(b, split)
  {
    if b != [] {
      assert Drain(b) == DrainSome(b);
      assert DrainSome(b) == DrainSplit(b, split);
    }
  }

  function Concat(chunks: seq<seq<byte>>): seq<byte> {
    if chunks == [] then [] else chunks[0] + Concat(chunks[1..])
  }

  /** The chunks pushed one after the other, each push draining the buffer. */
  function Feed(buffer: seq<byte>, chunks: seq<seq<byte>>): Drained
    decreases |chunks|
  {
    if chunks == [] then Drained([], buffer)
    else
      var first := Drain(buffer + chunks[0]);
      var others := Feed(first.rest, chunks[1..]);
      Drained(first.frames + others.frames, others.rest)
  }

  /** No blank line made of line feeds comes after one made of carriage returns and
      line feeds. A stream of one separator style is such a stream. */
  ghost predicate Ordered(s: seq<byte>) {
    forall p, q :: At(s, CRLFCRLF, p) && At(s, LFLF, q) ==> q < p
  }

  lemma {:induction false} OrderedSuffix(s: seq<byte>, n: nat)
    requires n <= |s| && Ordered(s)
    ensures Ordered(s[n..])
  {
    forall p, q | At(s[n..], CRLFCRLF, p) && At(s[n..], LFLF, q) ensures q < p {
      AtShift(s, CRLFCRLF, n, p);
      AtShift(s, LFLF, n, q);
    }
  }

  /** A frame found in a buffer is found again, with the same content, when more
      bytes follow. */
  lemma {:induction false} NextFrameGrows(a: seq<byte>, b: seq<byte>)
    requires NextFrame(a).Frame? && Ordered(a + b)
    ensures NextFrame(a + b) == Frame(NextFrame(a).content, NextFrame(a).rest + b)
  {
    var lf := Find(a, LFLF);
    if lf.Some? {
      FindGrows(a, b, LFLF);
      assert (a + b)[lf.value + 2..] == a[lf.value + 2..] + b;
    } else {
      var p := Find(a, CRLFCRLF).value;
      FindGrows(a, b, CRLFCRLF);
      forall q ensures !At(a + b, LFLF, q) {
        if At(a + b, LFLF, q) {
          AtInPrefix(a, b, LFLF, q);
        }
      }
      assert (a + b)[p + 4..] == a[p + 4..] + b;
    }
  }

  /** The result of draining more bytes after what a first drain left. */
  function Resume(first: Drained, more: seq<byte>): Drained {
    var after := Drain(first.rest + more);
    Drained(first.frames + after.frames, after.rest)
  }

  /** Draining can be interrupted anywhere. */
  lemma {:induction false} DrainResumes(a: seq<byte>, b: seq<byte>)
    requires Ordered(a + b)
    ensures Drain(a + b) == Resume(Drain(a), b)
    decreases |a|
  {
    DrainStep(a, NextFrame(a));
    match NextFrame(a)
    case NoFrame => assert [] + Drain(a + b).frames == Drain(a + b).frames;
    case Frame(content, rest) =>
      NextFrameGrows(a, b);
      DrainStep(a + b, Frame(content, rest + b));
      var n := |a| - |rest|;
      assert rest == a[n..] && (a + b)[n..] == rest + b;
      OrderedSuffix(a + b, n);
      DrainResumes(rest, b);
      ResumePrepended(content, Drain(rest), b);
  }

  lemma {:induction false} DrainRestIsSuffix(b: seq<byte>)
    ensures IsSuffix(Drain(b).rest, b)
    decreases |b|
  {
    DrainStep(b, NextFrame(b));
    if NextFrame(b).Frame? { DrainRestIsSuffix(NextFrame(b).rest); }
  }

  lemma {:induction false} FeedIsDrain(buffer: seq<byte>, chunks: seq<seq<byte>>)
    requires chunks != []
    requires Ordered(buffer + Concat(chunks))
    ensures Feed(buffer, chunks) == Drain(buffer + Concat(chunks))
    decreases |chunks|
  {
    var a, b := buffer + chunks[0], Concat(chunks[1..]);
    var first := Drain(a);
    assert buffer + Concat(chunks) == a + b;
    DrainResumes(a, b);
    if |chunks| == 1 {
      assert a + b == a;
      assert first.frames + [] == first.frames;
    } else {
      RestIsOrdered(a, b);
      FeedIsDrain(first.rest, chunks[1..]);
    }
  }

  lemma {:induction false} RestIsOrdered(a: seq<byte>, b: seq<byte>)
    requires Ordered(a + b)
    ensures Ordered(Drain(a).rest + b)
  {
    var r := Drain(a).rest;
    DrainRestIsSuffix(a);
    assert r + b == (a + b)[|a| - |r|..];
    OrderedSuffix(a + b, |a| - |r|);
  }

  // ---------- Where chunking matters ----------

  /** Frame `k` of one push is longer than frame `k` of the two pushes around `cut`. */
  ghost predicate Longer(s: seq<byte>, cut: nat, k: nat) {
    cut <= |s| && FrameLen(Drain(s), k) > FrameLen(Resume(Drain(s[..cut]), s[cut..]), k) >= 0
  }

  function FrameLen(d: Drained, k: nat): int {
    if k < |d.frames| then |d.frames[k]| else -1
  }

  /** A stream with a line-feed separator at `q` after another one at `p` can be cut
      so that other frames come out. */
  lemma {:induction false} CutThatMatters(s: seq<byte>, p: nat, q: nat) returns (cut: nat, k: nat)
    requires At(s, CRLFCRLF, p) && At(s, LFLF, q) && p <= q
    ensures Longer(s, cut, k)
    decreases |s|
  {
    var n;
    n, cut := AfterLineFeeds(s, p, q);
    if n == 0 {
      k := 0;
    } else {
      var inner, j := CutThatMatters(s[n..], p - n, q - n);
      cut, k := n + inner, j + 1;
    }
  }

  /** Either a cut that matters for the first frame, or a first frame that any cut of what
      follows it leaves alone. */
  lemma {:induction false} AfterLineFeeds(s: seq<byte>, p: nat, q: nat) returns (n: nat, cut: nat)
    requires At(s, CRLFCRLF, p) && At(s, LFLF, q) && p <= q
    ensures n == 0 ==> Longer(s, cut, 0)
    ensures n > 0 ==>
              && n <= p && n <= |s| && At(s[n..], CRLFCRLF, p - n) && At(s[n..], LFLF, q - n)
              && forall inner: nat, k: nat :: Longer(s[n..], inner, k) ==> Longer(s, n + inner, k + 1)
  {
    FindAtMost(s, CRLFCRLF, p);
    FindAtMost(s, LFLF, q);
    var p0, q0 := Find(s, CRLFCRLF).value, Find(s, LFLF).value;
    SeparatorsApart(s, p0, q0);
    SeparatorsApart(s, p, q0);
    n, cut := if q0 < p0 then q0 + 2 else 0, p0 + 4;
    if n == 0 {
      CutAfterFirst(s, p0, q0);
    } else {
      AtShift(s, CRLFCRLF, n, p - n);
      AtShift(s, LFLF, n, q - n);
      forall inner: nat, k: nat | Longer(s[n..], inner, k) ensures Longer(s, n + inner, k + 1) {
        CutAfterLineFeeds(s, s[n..], n, inner, k);
      }
    }
  }

  lemma {:induction false} SeparatorsApart(s: seq<byte>, p: nat, q: nat)
    requires At(s, CRLFCRLF, p) && At(s, LFLF, q)
    ensures q + 2 <= p || p + 3 <= q
  {
    AtIsSlice(s, CRLFCRLF, p);
    AtIsSlice(s, LFLF, q);
    var c, l := s[p..p + 4], s[q..q + 2];
    assert s[p] == c[0] && s[p + 1] == c[1] && s[p + 2] == c[2] && s[p + 3] == c[3];
    assert s[q] == l[0] && s[q + 1] == l[1];
  }

  lemma {:induction false} ResumePrepended(frame: seq<byte>, d: Drained, more: seq<byte>)
    ensures Resume(Prepend(frame, d), more) == Prepend(frame, Resume(d, more))
  {
    Assoc([frame], d.frames, Drain(d.rest + more).frames);
  }

  /** The cut lies after a first frame that both ways of reading take. */
  lemma {:induction false} CutAfterLineFeeds(s: seq<byte>, rest: seq<byte>, n: nat, inner: nat, k: nat)
    requires n >= 2 && Find(s, LFLF) == Some(n - 2) && n <= |s| && rest == s[n..]
    requires Longer(rest, inner, k)
    ensures Longer(s, n + inner, k + 1)
  {
    var frame := s[..n - 2];
    var a, b := s[..n + inner], s[n + inner..];
    FirstFrameOfCut(s, n, inner);
    DrainStep(a, Frame(frame, rest[..inner]));
    DrainStep(s, Frame(frame, rest));
    assert b == rest[inner..];
    ResumePrepended(frame, Drain(rest[..inner]), b);
  }

  lemma {:induction false} FirstFrameOfCut(s: seq<byte>, n: nat, inner: nat)
    requires n >= 2 && Find(s, LFLF) == Some(n - 2) && n + inner <= |s|
    ensures NextFrame(s[..n + inner]) == Frame(s[..n - 2], s[n..][..inner])
  {
    var a, b := s[..n + inner], s[n + inner..];
    assert s == a + b;
    forall i | 0 <= i <= n - 2 ensures At(a, LFLF, i) <==> At(s, LFLF, i) { AtInPrefix(a, b, LFLF, i); }
    FindIs(a, LFLF, n - 2);
    assert a[..n - 2] == s[..n - 2] && a[n..] == s[n..][..inner];
  }

  /** Cut right after the first carriage-return separator, the stream yields the frame
      before it; in one piece it yields a longer one. */
  lemma {:induction false} CutAfterFirst(s: seq<byte>, p: nat, q: nat)
    requires Find(s, CRLFCRLF) == Some(p) && Find(s, LFLF) == Some(q) && p < q
    ensures Longer(s, p + 4, 0)
  {
    var a, b := s[..p + 4], s[p + 4..];
    assert s == a + b;
    AtInPrefix(a, b, CRLFCRLF, p);
    forall i | 0 <= i < p ensures !At(a, CRLFCRLF, i) { AtInPrefix(a, b, CRLFCRLF, i); }
    FindIs(a, CRLFCRLF, p);
    forall i ensures !At(a, LFLF, i) {
      if At(a, LFLF, i) {
        SeparatorsApart(a, p, i);
        AtInPrefix(a, b, LFLF, i);
      }
    }
    assert NextFrame(a) == Frame(a[..p], a[p + 4..]);
    DrainStep(a, NextFrame(a));
    DrainStep(s, NextFrame(s));
    assert Drain(a).frames[0] == a[..p];
    assert Drain(s).frames[0] == s[..q];
  }

  /** Every way of cutting the stream gives what one push of it gives. */
  ghost predicate ChunkingIsInvisible(s: seq<byte>) {
    forall chunks: seq<seq<byte>> :: chunks != [] && Concat(chunks) == s ==> Feed([], chunks) == Drain(s)
  }

  /** Chunk independence, exactly: no way of cutting a stream into chunks changes its
      frames and leftover if and only if the stream is ordered. */
  lemma {:induction false} ChunkIndependence(s: seq<byte>)
    ensures ChunkingIsInvisible(s) <==> Ordered(s)
  {
    if Ordered(s) {
      forall chunks: seq<seq<byte>> | chunks != [] && Concat(chunks) == s ensures Feed([], chunks) == Drain(s) {
        assert [] + Concat(chunks) == s;
        FeedIsDrain([], chunks);
      }
    } else {
      ChunkingIsVisible(s);
    }
  }

  lemma {:induction false} ChunkingIsVisible(s: seq<byte>)
    requires !Ordered(s)
    ensures !ChunkingIsInvisible(s)
  {
    var p, q :| At(s, CRLFCRLF, p) && At(s, LFLF, q) && p <= q;
    var cut, k := CutThatMatters(s, p, q);
    var chunks := [s[..cut], s[cut..]];
    TwoChunks(s[..cut], s[cut..]);
    assert s[..cut] + s[cut..] == s;
    assert Concat(chunks) == s && Feed([], chunks) != Drain(s);
  }

  lemma {:induction false} TwoChunks(a: seq<byte>, b: seq<byte>)
    ensures Concat([a, b]) == a + b
    ensures Feed([], [a, b]) == Resume(Drain(a), b)
  {
    assert [a, b][1..] == [b] && [b][1..] == [];
    assert [] + a == a;
    assert Concat([b]) == b;
    var after := Drain(Drain(a).rest + b);
    assert after.frames + [] == after.frames;
    assert Feed(Drain(a).rest, [b]) == after;
  }
}
