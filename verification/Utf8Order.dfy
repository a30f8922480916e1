/** The order of texts, said by their first difference, and the order of their bytes. */
module Utf8Order {
  import opened Text
  import opened Utf8
  import opened Ordering

  /** One text comes before another exactly when it is a part of it that ends sooner, or
      has the smaller character at the first place where they differ. */
  lemma {:induction false} LessExactly(a: string, b: string)
    ensures Less(a, b) <==> exists n: nat :: FirstDifference(a, b, n)
  {
    if a != b { LessFrom(a, b); }
  }

  ghost predicate FirstDifference(a: string, b: string, n: nat) {
    n <= |a| && n < |b| && a[..n] == b[..n] && (n < |a| ==> a[n] < b[n])
  }

  lemma {:induction false} LessFrom(a: string, b: string)
    requires a != b
    ensures LessEq(a, b) <==> exists n: nat :: FirstDifference(a, b, n)
  {
    if a == "" || b == "" || a[0] != b[0] {
      if LessEq(a, b) {
        assert FirstDifference(a, b, 0);
      }
    } else {
      assert a == [a[0]] + a[1..] && b == [b[0]] + b[1..];
      LessFrom(a[1..], b[1..]);
      if LessEq(a, b) {
        var n: nat :| FirstDifference(a[1..], b[1..], n);
        var next := n + 1;
        assert a[..next] == [a[0]] + a[1..][..n] && b[..next] == [b[0]] + b[1..][..n];
        assert FirstDifference(a, b, next);
      }
      if n: nat :| FirstDifference(a, b, n) {
        assert a[1..][..n - 1] == a[..n][1..] && b[1..][..n - 1] == b[..n][1..];
        assert FirstDifference(a[1..], b[1..], n - 1);
      }
    }
  }

  /** Lexicographic order on bytes, in which Rust compares a `str`. */
  predicate BytesLessEq(a: seq<byte>, b: seq<byte>) {
    a == [] || (b != [] && (a[0] < b[0] || (a[0] == b[0] && BytesLessEq(a[1..], b[1..]))))
  }

  lemma {:induction false} SameFront(p: seq<byte>, a: seq<byte>, b: seq<byte>)
    ensures BytesLessEq(p + a, p + b) <==> BytesLessEq(a, b)
  {
    if p == [] {
      assert p + a == a && p + b == b;
    } else {
      assert (p + a)[1..] == p[1..] + a && (p + b)[1..] == p[1..] + b;
      SameFront(p[1..], a, b);
    }
  }

  lemma {:induction false} FrontDecides(p: seq<byte>, q: seq<byte>, i: nat, a: seq<byte>, b: seq<byte>)
    requires i < |p| && i < |q| && p[..i] == q[..i] && p[i] != q[i]
    ensures BytesLessEq(p + a, q + b) <==> p[i] < q[i]
  {
    assert p + a == p[..i] + (p[i..] + a) && q + b == q[..i] + (q[i..] + b);
    SameFront(p[..i], p[i..] + a, q[i..] + b);
  }

  /** The first differing byte of two characters, and what it says. */
  lemma {:induction false} CharsDiffer(c: char, d: char) returns (i: nat)
    requires c < d
    ensures var p, q := EncodeChar(c), EncodeChar(d);
            i < |p| && i < |q| && p[..i] == q[..i] && p[i] < q[i]
  {
    var p, q := EncodeChar(c), EncodeChar(d);
    var v, w := c as int, d as int;
    i := if p[0] != q[0] then 0 else if p[1] != q[1] then 1 else if p[2] != q[2] then 2 else 3;
    LengthsByLead(c);
    LengthsByLead(d);
    LeadsOrdered(c, d);
    if p[0] == q[0] {
      if |p| == 2 { Digits(v, w); }
      if |p| == 3 { Digits3(v, w); }
      if |p| == 4 {
        Digits4(v, w);
        if p[1] == q[1] { Digits3(v, w); }
      }
    }
  }

  lemma {:induction false} LengthsByLead(c: char)
    ensures |EncodeChar(c)| == SequenceLen(EncodeChar(c)[0])
  {
    FrontOfEncoded(c, []);
    assert EncodeChar(c) + [] == EncodeChar(c);
  }

  lemma {:induction false} LeadsOrdered(c: char, d: char)
    requires c < d
    ensures EncodeChar(c)[0] <= EncodeChar(d)[0]
  {
  }

  lemma {:induction false} Digits(v: nat, w: nat)
    requires v < w
    ensures v / 0x40 <= w / 0x40 && (v / 0x40 == w / 0x40 ==> v % 0x40 < w % 0x40)
  {
  }

  lemma {:induction false} Digits3(v: nat, w: nat)
    requires v < w && v / 0x1000 == w / 0x1000
    ensures v / 0x40 % 0x40 <= w / 0x40 % 0x40
    ensures v / 0x40 % 0x40 == w / 0x40 % 0x40 ==> v % 0x40 < w % 0x40
  {
    assert v / 0x40 / 0x40 == v / 0x1000 && w / 0x40 / 0x40 == w / 0x1000;
    Digits(v, w);
    if v / 0x40 != w / 0x40 { Digits(v / 0x40, w / 0x40); }
  }

  lemma {:induction false} Digits4(v: nat, w: nat)
    requires v < w && v / 0x4_0000 == w / 0x4_0000
    ensures v / 0x1000 % 0x40 <= w / 0x1000 % 0x40
    ensures v / 0x1000 % 0x40 == w / 0x1000 % 0x40 ==> v / 0x1000 == w / 0x1000
  {
    assert v / 0x1000 / 0x40 == v / 0x4_0000 && w / 0x1000 / 0x40 == w / 0x4_0000;
    if v / 0x1000 != w / 0x1000 { Digits(v / 0x1000, w / 0x1000); }
  }

  /** The order on code points is the order on the encoded bytes. */
  lemma {:induction false} ByteOrder(a: string, b: string)
    ensures LessEq(a, b) <==> BytesLessEq(Encode(a), Encode(b))
  {
    if a != "" && b != "" {
      EncodeStep(a);
      EncodeStep(b);
      if a[0] == b[0] {
        SameFront(EncodeChar(a[0]), Encode(a[1..]), Encode(b[1..]));
        ByteOrder(a[1..], b[1..]);
      } else if a[0] < b[0] {
        var i := CharsDiffer(a[0], b[0]);
        FrontDecides(EncodeChar(a[0]), EncodeChar(b[0]), i, Encode(a[1..]), Encode(b[1..]));
      } else {
        var i := CharsDiffer(b[0], a[0]);
        FrontDecides(EncodeChar(a[0]), EncodeChar(b[0]), i, Encode(a[1..]), Encode(b[1..]));
      }
    }
  }

  /** One character of each length (RFC 3629, section 3). */
  lemma {:induction false} EncodedLengths()
    ensures EncodeChar('A') == [0x41] && EncodeChar('\U{E9}') == [0xC3, 0xA9]
    ensures EncodeChar('\U{20AC}') == [0xE2, 0x82, 0xAC] && EncodeChar('\U{10348}') == [0xF0, 0x90, 0x8D, 0x88]
  {
  }
}
