/** What the decoders find at the front of any bytes, said with `EncodeChar` alone: the
    "maximal subpart" practice of the Unicode Standard, section 3.9. */
module Utf8Fronts {
  import opened Text
  import opened Utf8

  ghost predicate Begins(b: seq<byte>) {
    exists c :: b <= EncodeChar(c)
  }

  /** The shortest way to go on after the first `k` bytes of a sequence. */
  function Completed(b: seq<byte>): seq<byte>
    requires b != [] && SequenceLen(b[0]) > 0
  {
    var n := SequenceLen(b[0]);
    if n == 1 then [b[0]]
    else
      var second: byte := if |b| > 1 then b[1] else SecondBounds(b[0]).0;
      if n == 2 then [b[0], second]
      else
        var third: byte := if |b| > 2 then b[2] else 0x80;
        if n == 3 then [b[0], second, third]
        else [b[0], second, third, if |b| > 3 then b[3] else 0x80]
  }

  lemma {:induction false} CompletedIsChar(b: seq<byte>)
    requires b != [] && FrontOf(b).Incomplete?
    ensures FrontOf(Completed(b)).Char? && b <= Completed(b) && |b| < |Completed(b)|
    ensures |Completed(b)| == FrontOf(Completed(b)).len
  {
  }

  lemma {:induction false} IncompleteBegins(b: seq<byte>)
    requires b != [] && FrontOf(b).Incomplete?
    ensures exists c :: b <= EncodeChar(c) && b != EncodeChar(c)
  {
    CompletedIsChar(b);
    EncodeOfFront(Completed(b));
    var c := FrontOf(Completed(b)).c;
    assert b <= EncodeChar(c) && b != EncodeChar(c);
  }

  /** What is cut short of a malformed front is the beginning of a character. */
  lemma {:induction false} MalformedBegins(b: seq<byte>, n: nat)
    requires b != [] && FrontOf(b) == Malformed(n) && SequenceLen(b[0]) > 0
    ensures n < |b| && FrontOf(b[..n]).Incomplete?
  {
  }

  /** A malformed front is seen one byte after it. */
  lemma {:induction false} SameToTheFault(b: seq<byte>, e: seq<byte>, n: nat)
    requires b != [] && FrontOf(b) == Malformed(n) && n < |b|
    requires SequenceLen(b[0]) > 0 && b[..n + 1] <= e
    ensures FrontOf(e) == Malformed(n)
  {
    assert forall i :: 0 <= i <= n ==> e[i] == b[..n + 1][i] == b[i];
  }

  lemma {:induction false} EncodedIsChar(c: char)
    ensures FrontOf(EncodeChar(c)).Char?
  {
    FrontOfEncoded(c, []);
    assert EncodeChar(c) + [] == EncodeChar(c);
  }

  lemma {:induction false} NoLead(b: byte)
    ensures SequenceLen(b) == 0 <==> !Begins([b])
  {
    if SequenceLen(b) == 0 {
      forall c ensures !([b] <= EncodeChar(c)) {
        EncodedIsChar(c);
      }
    } else if SequenceLen(b) == 1 {
      assert [b] <= EncodeChar(b as char);
    } else {
      IncompleteBegins([b]);
    }
  }

  /** At the front stands a character where the bytes begin with its encoding, the start of
      one where they end before its encoding does, and otherwise a malformed part: as many
      bytes as begin some character, or one byte if that begins none. */
  lemma {:induction false} FrontExactly(b: seq<byte>)
    requires b != []
    ensures match FrontOf(b)
            case Char(c, n) => n == |EncodeChar(c)| && EncodeChar(c) <= b
            case Incomplete => exists c :: b <= EncodeChar(c) && b != EncodeChar(c)
            case Malformed(n) =>
              if Begins(b[..1]) then n < |b| && Begins(b[..n]) && !Begins(b[..n + 1]) else n == 1
  {
    match FrontOf(b) {
      case Char(c, n) =>
        EncodeOfFront(b);
      case Incomplete =>
        IncompleteBegins(b);
      case Malformed(n) =>
        assert b[..1] == [b[0]];
        NoLead(b[0]);
        if SequenceLen(b[0]) > 0 {
          MalformedBegins(b, n);
          IncompleteBegins(b[..n]);
          if Begins(b[..n + 1]) {
            var c :| b[..n + 1] <= EncodeChar(c);
            EncodedIsChar(c);
            SameToTheFault(b, EncodeChar(c), n);
          }
        }
    }
  }

  /** After a valid text, validation stops where no character stands. */
  lemma {:induction false} StopsThere(valid: string, rest: seq<byte>)
    requires rest != [] && !FrontOf(rest).Char?
    ensures FromUtf8(Encode(valid) + rest) ==
            Err(Utf8Error(|Encode(valid)|, if FrontOf(rest).Malformed? then Some(FrontOf(rest).len) else None))
  {
    FromUtf8AfterValid(valid, rest);
    DecodeStep(rest, FrontOf(rest));
  }

  /** Repair puts one replacement character for what stands there, and goes on after it. */
  lemma {:induction false} RepairsThere(valid: string, rest: seq<byte>)
    requires rest != [] && !FrontOf(rest).Char?
    ensures Lossy(Encode(valid) + rest) ==
            valid + ("\U{FFFD}" + if FrontOf(rest).Malformed? then Lossy(rest[FrontOf(rest).len..]) else "")
  {
    LossyAfterValid(valid, rest);
    DecodeStep(rest, FrontOf(rest));
  }
}
