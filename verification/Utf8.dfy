/** UTF-8 as the Rust standard library encodes, validates and repairs it
    (RFC 3629, section 3), and the two places of the repository that cut
    encoded text: `decode_complete_utf8` in `api/src/sse.rs` and
    `truncate_output` in `runtime/src/bash.rs`. */
module Utf8 {
  import opened Text

  const REPLACEMENT: char := '\U{FFFD}'

  function EncodeChar(c: char): (r: seq<byte>)
    ensures 1 <= |r| <= 4
  {
    var v := c as int;
    if v < 0x80 then [v]
    else if v < 0x800 then [0xC0 + v / 0x40, 0x80 + v % 0x40]
    else if v < 0x1_0000 then [0xE0 + v / 0x1000, 0x80 + v / 0x40 % 0x40, 0x80 + v % 0x40]
    else [0xF0 + v / 0x4_0000, 0x80 + v / 0x1000 % 0x40, 0x80 + v / 0x40 % 0x40, 0x80 + v % 0x40]
  }

  /** The bytes of a `str`. `EncodeStep` opens it one character at a time. */
  function Encode(s: string): (r: seq<byte>)
    ensures |r| >= |s|
    decreases |s|, 2
  {
    if s == [] then [] else EncodeSome(s)
  }

  function EncodeSome(s: string): (r: seq<byte>)
    requires s != []
    ensures |r| >= |s|
    decreases |s|, 1
  {
    EncodeOnto(s[0], s[1..])
  }

  function EncodeOnto(c: char, s: string): (r: seq<byte>)
    ensures |r| >= |s| + 1
    decreases |s| + 1, 0
  {
    EncodeChar(c) + Encode(s)
  }

  lemma {:induction false} EncodeStep(s: string)
    requires s != []
    ensures Encode(s) == EncodeChar(s[0]) + Encode(s[1..])
  {
    assert Encode(s) == EncodeSome(s);
    assert EncodeSome(s) == EncodeOnto(s[0], s[1..]);
  }

  predicate IsContinuation(b: byte) {
    0x80 <= b < 0xC0
  }

  /** What stands at the front of a byte string: a character and its length, a
      malformed part with the length `error_len` reports, or the start of a
      sequence that the end of the input cuts off. */
  datatype Front = Char(c: char, len: nat) | Malformed(len: nat) | Incomplete

  /** Lower and upper bound of the byte after the lead byte `b`. */
  function SecondBounds(b: byte): (int, int) {
    if b == 0xE0 then (0xA0, 0xC0)
    else if b == 0xED then (0x80, 0xA0)
    else if b == 0xF0 then (0x90, 0xC0)
    else if b == 0xF4 then (0x80, 0x90)
    else (0x80, 0xC0)
  }

  function SequenceLen(b: byte): nat {
    if b < 0x80 then 1
    else if 0xC2 <= b < 0xE0 then 2
    else if 0xE0 <= b < 0xF0 then 3
    else if 0xF0 <= b < 0xF5 then 4
    else 0
  }

  /** The scalar value a lead byte and its continuation bytes spell. */
  function Scalar2(b0: int, b1: int): int {
    (b0 - 0xC0) * 0x40 + (b1 - 0x80)
  }

  function Scalar3(b0: int, b1: int, b2: int): int {
    (b0 - 0xE0) * 0x1000 + (b1 - 0x80) * 0x40 + (b2 - 0x80)
  }

  function Scalar4(b0: int, b1: int, b2: int, b3: int): int {
    (b0 - 0xF0) * 0x4_0000 + (b1 - 0x80) * 0x1000 + (b2 - 0x80) * 0x40 + (b3 - 0x80)
  }

  function FrontOf(b: seq<byte>): (r: Front)
    requires b != []
    ensures !r.Incomplete? ==> 1 <= r.len <= |b|
  {
    var n := SequenceLen(b[0]);
    if n == 0 then Malformed(1)
    else if n == 1 then Char(b[0] as char, 1)
    else if |b| < 2 then Incomplete
    else if !(SecondBounds(b[0]).0 <= b[1] < SecondBounds(b[0]).1) then Malformed(1)
    else if n == 2 then Char(Scalar2(b[0], b[1]) as char, 2)
    else if |b| < 3 then Incomplete
    else if !IsContinuation(b[2]) then Malformed(2)
    else if n == 3 then Char(Scalar3(b[0], b[1], b[2]) as char, 3)
    else if |b| < 4 then Incomplete
    else if !IsContinuation(b[3]) then Malformed(3)
    else Char(Scalar4(b[0], b[1], b[2], b[3]) as char, 4)
  }

  /** `Utf8Error`: how far the input is valid, and the length of the malformed
      part, absent when the input ends inside a sequence. */
  datatype Utf8Error = Utf8Error(validUpTo: nat, errorLen: Option<nat>)

  /** `str::from_utf8`. */
  function FromUtf8(b: seq<byte>): (r: Result<string, Utf8Error>)
    ensures r.Err? ==> r.error.validUpTo < |b|
    decreases |b|, 2
  {
    if b == [] then Ok("") else Validate(b)
  }

  function Validate(b: seq<byte>): (r: Result<string, Utf8Error>)
    requires b != []
    ensures r.Err? ==> r.error.validUpTo < |b|
    decreases |b|, 1
  {
    ValidateFront(b, FrontOf(b))
  }

  function ValidateFront(b: seq<byte>, front: Front): (r: Result<string, Utf8Error>)
    requires b != [] && (!front.Incomplete? ==> 1 <= front.len <= |b|)
    ensures r.Err? ==> r.error.validUpTo < |b|
    decreases |b|, 0
  {
    match front
    case Incomplete => Err(Utf8Error(0, None))
    case Malformed(n) => Err(Utf8Error(0, Some(n)))
    case Char(c, n) =>
      match FromUtf8(b[n..])
      case Ok(s) => Ok([c] + s)
      case Err(e) => Err(Utf8Error(n + e.validUpTo, e.errorLen))
  }

  /** `String::from_utf8_lossy`: a replacement character for each malformed part. */
  function Lossy(b: seq<byte>): string
    decreases |b|, 2
  {
    if b == [] then "" else Repair(b)
  }

  function Repair(b: seq<byte>): string
    requires b != []
    decreases |b|, 1
  {
    RepairFront(b, FrontOf(b))
  }

  function RepairFront(b: seq<byte>, front: Front): string
    requires b != [] && (!front.Incomplete? ==> 1 <= front.len <= |b|)
    decreases |b|, 0
  {
    match front
    case Incomplete => [REPLACEMENT]
    case Malformed(n) => [REPLACEMENT] + Lossy(b[n..])
    case Char(c, n) => [c] + Lossy(b[n..])
  }

  /** The decoders read one front and go on after it. */
  lemma {:induction false} DecodeStep(b: seq<byte>, front: Front)
    requires b != [] && front == FrontOf(b)
    ensures FromUtf8(b) == ValidateFront(b, front)
    ensures Lossy(b) == RepairFront(b, front)
  {
    assert FromUtf8(b) == Validate(b) && Validate(b) == ValidateFront(b, front);
    assert Lossy(b) == Repair(b) && Repair(b) == RepairFront(b, front);
  }

  // ---------- Encoding and decoding are inverse ----------

  lemma {:induction false} EncodeOfFront(b: seq<byte>)
    requires b != [] && FrontOf(b).Char?
    ensures b[..FrontOf(b).len] == EncodeChar(FrontOf(b).c)
  {
    var n := FrontOf(b).len;
    if n == 2 { Split2(b[0], b[1]); }
    if n == 3 { Split3(b[0], b[1], b[2]); }
    if n == 4 { Split4(b[0], b[1], b[2], b[3]); }
  }

  lemma {:induction false} Split2(b0: int, b1: int)
    requires 0x80 <= b1 < 0xC0
    ensures 0xC0 + Scalar2(b0, b1) / 0x40 == b0 && 0x80 + Scalar2(b0, b1) % 0x40 == b1
  {
  }

  lemma {:induction false} Split3(b0: int, b1: int, b2: int)
    requires 0x80 <= b1 < 0xC0 && 0x80 <= b2 < 0xC0
    ensures var v := Scalar3(b0, b1, b2);
            0xE0 + v / 0x1000 == b0 && 0x80 + v / 0x40 % 0x40 == b1 && 0x80 + v % 0x40 == b2
  {
    var v := Scalar3(b0, b1, b2);
    assert v / 0x40 == (b0 - 0xE0) * 0x40 + (b1 - 0x80);
  }

  lemma {:induction false} Split4(b0: int, b1: int, b2: int, b3: int)
    requires 0x80 <= b1 < 0xC0 && 0x80 <= b2 < 0xC0 && 0x80 <= b3 < 0xC0
    ensures var v := Scalar4(b0, b1, b2, b3);
            && 0xF0 + v / 0x4_0000 == b0 && 0x80 + v / 0x1000 % 0x40 == b1
            && 0x80 + v / 0x40 % 0x40 == b2 && 0x80 + v % 0x40 == b3
  {
    var v := Scalar4(b0, b1, b2, b3);
    assert v / 0x40 == (b0 - 0xF0) * 0x1000 + (b1 - 0x80) * 0x40 + (b2 - 0x80);
    assert v / 0x1000 == (b0 - 0xF0) * 0x40 + (b1 - 0x80);
  }

  lemma {:induction false} FrontOfEncoded(c: char, rest: seq<byte>)
    ensures FrontOf(EncodeChar(c) + rest) == Char(c, |EncodeChar(c)|)
  {
    var v := c as int;
    var b := EncodeChar(c) + rest;
    if v < 0x80 {
      assert b[0] == v;
    } else if v < 0x800 {
      Join2(v);
      assert b[0] == 0xC0 + v / 0x40 && b[1] == 0x80 + v % 0x40;
    } else if v < 0x1_0000 {
      Join3(v);
      assert b[0] == 0xE0 + v / 0x1000 && b[1] == 0x80 + v / 0x40 % 0x40 && b[2] == 0x80 + v % 0x40;
    } else {
      Join4(v);
      assert b[0] == 0xF0 + v / 0x4_0000 && b[1] == 0x80 + v / 0x1000 % 0x40;
      assert b[2] == 0x80 + v / 0x40 % 0x40 && b[3] == 0x80 + v % 0x40;
    }
  }

  lemma {:induction false} Join2(v: int)
    ensures Scalar2(0xC0 + v / 0x40, 0x80 + v % 0x40) == v
  {
  }

  lemma {:induction false} Join3(v: int)
    ensures Scalar3(0xE0 + v / 0x1000, 0x80 + v / 0x40 % 0x40, 0x80 + v % 0x40) == v
    ensures v / 0x1000 == 0 && v >= 0x800 ==> v / 0x40 % 0x40 >= 0x20
    ensures v / 0x1000 == 0xD && (v < 0xD800 || v >= 0xE000) ==> v / 0x40 % 0x40 < 0x20
  {
    assert v / 0x40 / 0x40 == v / 0x1000;
  }

  lemma {:induction false} Join4(v: int)
    ensures Scalar4(0xF0 + v / 0x4_0000, 0x80 + v / 0x1000 % 0x40, 0x80 + v / 0x40 % 0x40, 0x80 + v % 0x40) == v
    ensures v / 0x4_0000 == 0 && v >= 0x1_0000 ==> v / 0x1000 % 0x40 >= 0x10
    ensures v / 0x4_0000 == 4 && v < 0x11_0000 ==> v / 0x1000 % 0x40 < 0x10
  {
    assert v / 0x40 / 0x40 == v / 0x1000 && v / 0x1000 / 0x40 == v / 0x4_0000;
  }

  lemma {:induction false} FrontOfCut(c: char, n: nat)
    requires 0 < n < |EncodeChar(c)|
    ensures FrontOf(EncodeChar(c)[..n]) == Incomplete
  {
  }

  /** A byte string is the encoding of at most one text, and `from_utf8` finds it:
      it accepts exactly the encodings and returns the text encoded. */
  lemma {:induction false} FromUtf8Exact(b: seq<byte>, s: string)
    ensures FromUtf8(b) == Ok(s) <==> b == Encode(s)
    decreases |b|
  {
    if b != [] { DecodeStep(b, FrontOf(b)); }
    if b != [] && FrontOf(b).Char? {
      var Char(c, n) := FrontOf(b);
      EncodeOfFront(b);
      assert b == EncodeChar(c) + b[n..];
      if s != [] {
        EncodeStep(s);
        FromUtf8Exact(b[n..], s[1..]);
        assert s == [s[0]] + s[1..];
      }
    }
    if b == Encode(s) && s != [] {
      EncodeStep(s);
      FrontOfEncoded(s[0], Encode(s[1..]));
    }
  }

  lemma {:induction false} FromUtf8OfEncode(s: string)
    ensures FromUtf8(Encode(s)) == Ok(s)
  {
    FromUtf8Exact(Encode(s), s);
  }

  /** Both decoders pass over an encoded character. */
  lemma {:induction false} LossyStep(c: char, rest: seq<byte>)
    ensures Lossy(EncodeChar(c) + rest) == [c] + Lossy(rest)
  {
    FrontOfEncoded(c, rest);
    DecodeStep(EncodeChar(c) + rest, Char(c, |EncodeChar(c)|));
    assert (EncodeChar(c) + rest)[|EncodeChar(c)|..] == rest;
  }

  lemma {:induction false} FromUtf8Step(c: char, rest: seq<byte>)
    ensures FromUtf8(EncodeChar(c) + rest) ==
            match FromUtf8(rest)
            case Ok(s) => Ok([c] + s)
            case Err(e) => Err(Utf8Error(|EncodeChar(c)| + e.validUpTo, e.errorLen))
  {
    FrontOfEncoded(c, rest);
    DecodeStep(EncodeChar(c) + rest, Char(c, |EncodeChar(c)|));
    assert (EncodeChar(c) + rest)[|EncodeChar(c)|..] == rest;
  }

  /** Lossy decoding reads a valid front as it is. */
  lemma {:induction false} LossyAfterValid(s: string, rest: seq<byte>)
    ensures Lossy(Encode(s) + rest) == s + Lossy(rest)
  {
    if s == [] {
      assert Encode(s) + rest == rest;
    } else {
      EncodeStep(s);
      Assoc(EncodeChar(s[0]), Encode(s[1..]), rest);
      LossyStep(s[0], Encode(s[1..]) + rest);
      LossyAfterValid(s[1..], rest);
    }
  }

  lemma {:induction false} LossyOfEncode(s: string)
    ensures Lossy(Encode(s)) == s
  {
    LossyAfterValid(s, []);
    assert Encode(s) + [] == Encode(s) && s + [] == s;
  }

  lemma {:induction false} EncodeConcat(a: string, b: string)
    ensures Encode(a + b) == Encode(a) + Encode(b)
  {
    if a == [] {
      assert a + b == b;
    } else {
      assert (a + b)[1..] == a[1..] + b;
      EncodeStep(a);
      EncodeStep(a + b);
      EncodeConcat(a[1..], b);
      Assoc(EncodeChar(a[0]), Encode(a[1..]), Encode(b));
    }
  }

  /** A byte below 0x80 stands for itself: it occurs in the encoding exactly when
      its character occurs in the text. */
  lemma {:induction false} AsciiByteOccurs(s: string, v: byte)
    requires v < 0x80
    ensures v in Encode(s) <==> v as char in s
  {
    if s != [] {
      EncodeStep(s);
      AsciiByteOccurs(s[1..], v);
      assert v in EncodeChar(s[0]) <==> s[0] == v as char;
      assert s == [s[0]] + s[1..];
    }
  }

  predicate IsAscii(s: string) {
    forall c :: c in s ==> c as int < 0x80
  }

  /** `str::len` counts characters exactly on ASCII text. */
  lemma {:induction false} ByteLenIsCharCount(s: string)
    ensures |Encode(s)| == |s| <==> IsAscii(s)
  {
    if s != [] {
      EncodeStep(s);
      ByteLenIsCharCount(s[1..]);
      assert s == [s[0]] + s[1..];
      assert IsAscii(s) <==> s[0] as int < 0x80 && IsAscii(s[1..]) by {
        assert s[0] in s && forall c :: c in s <==> c == s[0] || c in s[1..];
      }
    }
  }

  // ---------- Cuts ----------

  /** `decode_complete_utf8`. */
  function DecodeComplete(b: seq<byte>): string {
    match FromUtf8(b)
    case Ok(text) => text
    case Err(e) =>
      Lossy(b[..e.validUpTo]) + (if e.errorLen.Some? then Lossy(b[e.validUpTo..]) else "")
  }

  /** How many whole characters of `s` fit in `n` bytes. */
  function WholeChars(s: string, n: nat): (k: nat)
    ensures k <= |s|
  {
    if s == [] || |EncodeChar(s[0])| > n then 0 else 1 + WholeChars(s[1..], n - |EncodeChar(s[0])|)
  }

  /** `WholeChars` is what its name says: that many characters fit, one more does not. */
  lemma {:induction false} WholeCharsIsMaximal(s: string, n: nat)
    ensures var k := WholeChars(s, n);
            |Encode(s[..k])| <= n && (k < |s| ==> |Encode(s[..k + 1])| > n && n < |Encode(s[..k])| + 4)
  {
    var k := WholeChars(s, n);
    if k == 0 {
      assert s[..0] == [];
      if s != [] {
        EncodeStep(s[..1]);
        assert s[..1][1..] == [];
      }
    } else {
      WholeCharsIsMaximal(s[1..], n - |EncodeChar(s[0])|);
      WholeStep(s, k - 1);
      if k < |s| { WholeStep(s, k); }
    }
  }

  lemma {:induction false} WholeStep(s: string, k: nat)
    requires s != [] && k < |s|
    ensures s[..k + 1] == [s[0]] + s[1..][..k]
    ensures Encode(s[..k + 1]) == EncodeChar(s[0]) + Encode(s[1..][..k])
  {
    assert s[..k + 1][1..] == s[1..][..k];
    EncodeStep(s[..k + 1]);
  }

  lemma {:induction false} TakeEncodes(s: string, k: nat)
    requires k <= |s|
    ensures Encode(s[..k]) <= Encode(s)
  {
    if k > 0 {
      EncodeStep(s);
      TakeEncodes(s[1..], k - 1);
      WholeStep(s, k - 1);
    }
  }

  lemma {:induction false} WholeIsPrefix(s: string, n: nat)
    ensures var whole := s[..WholeChars(s, n)];
            |Encode(whole)| <= n && Encode(whole) <= Encode(s)
  {
    WholeCharsIsMaximal(s, n);
    TakeEncodes(s, WholeChars(s, n));
  }

  lemma {:induction false} FromUtf8AfterValid(s: string, tail: seq<byte>)
    ensures FromUtf8(Encode(s) + tail) ==
            match FromUtf8(tail)
            case Ok(t) => Ok(s + t)
            case Err(e) => Err(Utf8Error(|Encode(s)| + e.validUpTo, e.errorLen))
  {
    if s == [] {
      assert Encode(s) + tail == tail;
      if FromUtf8(tail).Ok? { assert s + FromUtf8(tail).value == FromUtf8(tail).value; }
    } else {
      var rest := Encode(s[1..]) + tail;
      EncodeStep(s);
      Assoc(EncodeChar(s[0]), Encode(s[1..]), tail);
      FromUtf8Step(s[0], rest);
      FromUtf8AfterValid(s[1..], tail);
      if FromUtf8(tail).Ok? { assert s + FromUtf8(tail).value == [s[0]] + (s[1..] + FromUtf8(tail).value); }
    }
  }

  /** What a cut leaves after the whole characters: nothing, or a part of one more. */
  lemma {:induction false} CutTail(s: string, n: nat) returns (tail: seq<byte>)
    requires n <= |Encode(s)|
    ensures Encode(s)[..n] == Encode(s[..WholeChars(s, n)]) + tail
    ensures tail != [] ==> FromUtf8(tail) == Err(Utf8Error(0, None))
  {
    var k := WholeChars(s, n);
    WholeIsPrefix(s, n);
    WholeCharsIsMaximal(s, n);
    var whole := Encode(s[..k]);
    tail := Encode(s)[|whole|..n];
    SplitEncode(s, k);
    if k == |s| {
      assert Encode(s[k..]) == [];
    } else if tail != [] {
      EncodeLast(s, k);
      assert tail == Encode(s[k..])[..n - |whole|];
      CutChar(s[k..], n - |whole|);
    }
  }

  /** A first character cut off decodes to nothing. */
  lemma {:induction false} CutChar(s: string, n: nat)
    requires s != [] && 0 < n < |EncodeChar(s[0])|
    ensures n <= |Encode(s)| && FromUtf8(Encode(s)[..n]) == Err(Utf8Error(0, None))
  {
    EncodeStep(s);
    TakeFront(EncodeChar(s[0]), Encode(s[1..]), n);
    FrontOfCut(s[0], n);
    DecodeStep(Encode(s)[..n], Incomplete);
  }

  lemma {:induction false} TakeFront(a: seq<byte>, b: seq<byte>, n: nat)
    requires n <= |a|
    ensures (a + b)[..n] == a[..n]
  {
  }

  lemma {:induction false} SplitEncode(s: string, k: nat)
    requires k <= |s|
    ensures Encode(s) == Encode(s[..k]) + Encode(s[k..])
  {
    EncodeConcat(s[..k], s[k..]);
    assert s[..k] + s[k..] == s;
  }

  lemma {:induction false} EncodeLast(s: string, k: nat)
    requires k < |s|
    ensures Encode(s[..k + 1]) == Encode(s[..k]) + EncodeChar(s[k])
  {
    EncodeConcat(s[..k], [s[k]]);
    assert s[..k + 1] == s[..k] + [s[k]];
    EncodeStep([s[k]]);
    assert [s[k]][1..] == [];
  }

  /** Validation of a cut text: valid up to the last whole character, and never malformed. */
  lemma {:induction false} FromUtf8OfCut(s: string, n: nat)
    requires n <= |Encode(s)|
    ensures var whole := s[..WholeChars(s, n)];
            FromUtf8(Encode(s)[..n]) ==
              if n == |Encode(whole)| then Ok(whole) else Err(Utf8Error(|Encode(whole)|, None))
  {
    var whole := s[..WholeChars(s, n)];
    var tail := CutTail(s, n);
    FromUtf8AfterValid(whole, tail);
    assert whole + [] == whole;
  }

  /** A text cut after any number of bytes decodes to its whole characters: none is
      lost and no replacement character is added. */
  lemma {:induction false} DecodeCompleteOfCut(s: string, n: nat)
    requires n <= |Encode(s)|
    ensures DecodeComplete(Encode(s)[..n]) == s[..WholeChars(s, n)]
  {
    var whole := s[..WholeChars(s, n)];
    FromUtf8OfCut(s, n);
    WholeIsPrefix(s, n);
    assert Encode(s)[..n][..|Encode(whole)|] == Encode(whole);
    LossyOfEncode(whole);
  }

  /** Where validation stops: after the encoding of a text, before a front that is
      not a character. */
  lemma {:induction false} ErrorShape(b: seq<byte>) returns (valid: string)
    requires FromUtf8(b).Err?
    ensures var e := FromUtf8(b).error;
            b[..e.validUpTo] == Encode(valid)
    decreases |b|
  {
    DecodeStep(b, FrontOf(b));
    if FrontOf(b).Char? {
      var n := FrontOf(b).len;
      var rest := ErrorShape(b[n..]);
      valid := [FrontOf(b).c] + rest;
      EncodeOfFront(b);
      EncodeStep(valid);
      assert valid[1..] == rest;
      var v := FromUtf8(b[n..]).error.validUpTo;
      assert b[..n + v] == b[..n] + b[n..][..v];
    } else {
      valid := "";
    }
  }

  lemma {:induction false} CutOffTail(b: seq<byte>)
    requires FromUtf8(b).Err? && FromUtf8(b).error.errorLen.None?
    ensures Lossy(b[FromUtf8(b).error.validUpTo..]) == [REPLACEMENT]
    decreases |b|
  {
    DecodeStep(b, FrontOf(b));
    if FrontOf(b).Char? {
      var n := FrontOf(b).len;
      CutOffTail(b[n..]);
      var v := FromUtf8(b[n..]).error.validUpTo;
      assert b[n..][v..] == b[n + v..];
    } else {
      assert b[0..] == b;
    }
  }

  /** On any bytes, `decode_complete_utf8` differs from lossy decoding by one thing
      only: bytes that are valid up to a cut-off last sequence lose its replacement
      character. */
  lemma {:induction false} DecodeCompleteVersusLossy(b: seq<byte>)
    ensures Lossy(b) == DecodeComplete(b) +
              (if FromUtf8(b).Err? && FromUtf8(b).error.errorLen.None? then [REPLACEMENT] else "")
  {
    match FromUtf8(b) {
      case Ok(s) => FromUtf8Exact(b, s); LossyOfEncode(s);
      case Err(e) =>
        var valid := ErrorShape(b);
        assert b == Encode(valid) + b[e.validUpTo..];
        LossyAfterValid(valid, b[e.validUpTo..]);
        LossyOfEncode(valid);
        if e.errorLen.None? { CutOffTail(b); }
    }
  }

  /** `str::is_char_boundary`. */
  predicate IsCharBoundary(b: seq<byte>, i: nat) {
    i == 0 || i == |b| || (i < |b| && !IsContinuation(b[i]))
  }

  /** The boundaries of an encoded text are the ends of its leading characters. */
  lemma {:induction false} BoundaryIffWhole(s: string, i: nat)
    requires i <= |Encode(s)|
    ensures IsCharBoundary(Encode(s), i) <==> i == |Encode(s[..WholeChars(s, i)])|
  {
    if i == 0 {
      if s != [] { assert WholeChars(s, 0) == 0; }
      assert s[..0] == [];
    } else {
      var e := EncodeChar(s[0]);
      EncodeStep(s);
      if i < |e| {
        assert Encode(s)[i] == e[i] && IsContinuation(e[i]);
        assert s[..0] == [];
      } else {
        var k := WholeChars(s[1..], i - |e|);
        BoundaryIffWhole(s[1..], i - |e|);
        WholeStep(s, k);
        if |e| < i < |Encode(s)| { assert Encode(s)[i] == Encode(s[1..])[i - |e|]; }
        if |e| == i < |Encode(s)| { FirstByteIsLead(s[1..]); }
      }
    }
  }

  lemma {:induction false} FirstByteIsLead(s: string)
    requires s != []
    ensures !IsContinuation(Encode(s)[0])
  {
    EncodeStep(s);
  }
}
