/** What the printer and the parser of `runtime/src/json.rs` promise each other. */
module JsonRoundTrip {
  import opened Text
  import opened Ordering
  import opened Json

  // ---------- Whitespace ----------

  lemma {:induction false} SkipWsPrefix(w: string, s: string)
    requires AllWs(w)
    ensures SkipWs(w + s) == SkipWs(s)
  {
    if w == [] {
      assert w + s == s;
    } else {
      assert (w + s)[1..] == w[1..] + s;
      SkipWsPrefix(w[1..], s);
    }
  }

  lemma {:induction false} SkipWsEmptyIffAllWs(s: string)
    ensures SkipWs(s) == [] <==> AllWs(s)
  {
    if s != [] && IsWs(s[0]) {
      SkipWsEmptyIffAllWs(s[1..]);
      assert s == [s[0]] + s[1..];
    } else if s != [] {
      assert s[0] in s;
    }
  }

  // ---------- Strings ----------

  /** Four digits are read back to the value they spell. */
  lemma {:induction false} Hex4RoundTrip(c: char, rest: string)
    requires c as int < 0x10000
    ensures ParseHex(Hex4(c as int) + rest, 4, 0) == Parsed(c, rest)
  {
    var v := c as int;
    HexDigits(v / 4096, v / 256 % 16, v / 16 % 16, v % 16, rest, 4);
    NibblesValue(v);
  }

  lemma {:induction false} NibblesValue(v: int)
    ensures ((v / 4096 * 16 + v / 256 % 16) * 16 + v / 16 % 16) * 16 + v % 16 == v
  {
    assert v / 256 / 16 == v / 4096 && v / 16 / 16 == v / 256;
  }

  lemma {:induction false} TwoHexDigits(d1: int, d0: int, rest: string, n: nat, value: nat)
    requires 0 <= d1 < 16 && 0 <= d0 < 16 && n >= 2
    ensures ParseHex([HexDigit(d1), HexDigit(d0)] + rest, n, value) ==
            ParseHex(rest, n - 2, (value * 16 + d1) * 16 + d0)
  {
    var t := [HexDigit(d0)] + rest;
    assert [HexDigit(d1), HexDigit(d0)] + rest == [HexDigit(d1)] + t;
    HexStep(d1, t, n, value);
    HexStep(d0, rest, n - 1, value * 16 + d1);
  }

  lemma {:induction false} HexDigits(d3: int, d2: int, d1: int, d0: int, rest: string, n: nat)
    requires 0 <= d3 < 16 && 0 <= d2 < 16 && 0 <= d1 < 16 && 0 <= d0 < 16 && n == 4
    ensures ParseHex([HexDigit(d3), HexDigit(d2), HexDigit(d1), HexDigit(d0)] + rest, n, 0)
         == ParseHex(rest, 0, ((d3 * 16 + d2) * 16 + d1) * 16 + d0)
  {
    var low := [HexDigit(d1), HexDigit(d0)] + rest;
    assert [HexDigit(d3), HexDigit(d2), HexDigit(d1), HexDigit(d0)] + rest == [HexDigit(d3), HexDigit(d2)] + low;
    TwoHexDigits(d3, d2, low, n, 0);
    TwoHexDigits(d1, d0, rest, n - 2, d3 * 16 + d2);
  }

  lemma {:induction false} HexStep(d: int, rest: string, n: nat, value: nat)
    requires 0 <= d < 16 && n > 0
    ensures ParseHex([HexDigit(d)] + rest, n, value) == ParseHex(rest, n - 1, value * 16 + d)
  {
    HexDigitRoundTrip(d);
    assert ([HexDigit(d)] + rest)[1..] == rest;
  }

  lemma {:induction false} ShortEscapeRoundTrip(c: char)
    requires ShortEscape(c).Some?
    ensures ShortEscape(c).value != 'u' && Unescape(ShortEscape(c).value) == Some(c)
  {
  }

  lemma {:induction false} EscapeSequence(c: char, rest: string)
    requires ShortEscape(c).Some? || IsControl(c)
    ensures |EscapeChar(c)| > 1 && EscapeChar(c)[0] == '\\'
    ensures ParseEscape(EscapeChar(c)[1..] + rest) == Parsed(c, rest)
  {
    var e := EscapeChar(c)[1..] + rest;
    if ShortEscape(c).Some? {
      ShortEscapeRoundTrip(c);
      assert e[1..] == rest;
    } else {
      assert e[1..] == Hex4(c as int) + rest;
      Hex4RoundTrip(c, rest);
    }
  }

  /** Reading one printed character adds exactly that character. */
  lemma {:induction false} EscapeCharRoundTrip(c: char, rest: string, acc: string)
    ensures ParseChars(EscapeChar(c) + rest, acc) == ParseChars(rest, acc + [c])
  {
    var e := EscapeChar(c);
    if ShortEscape(c).Some? || IsControl(c) {
      EscapeSequence(c, rest);
      assert (e + rest)[1..] == e[1..] + rest;
    } else {
      assert (e + rest)[1..] == rest;
    }
  }

  lemma {:induction false} ClosingQuote(rest: string, acc: string)
    ensures ParseChars("\"" + rest, acc) == Parsed(acc, rest)
  {
    assert ("\"" + rest)[1..] == rest;
  }

  lemma {:induction false} EscapeAllRoundTrip(x: string, rest: string, acc: string)
    ensures ParseChars(EscapeAll(x) + ("\"" + rest), acc) == Parsed(acc + x, rest)
  {
    if x == [] {
      assert EscapeAll(x) + ("\"" + rest) == "\"" + rest;
      ClosingQuote(rest, acc);
      assert acc + x == acc;
      return;
    }
    EscapeAllRoundTrip(x[1..], rest, acc + [x[0]]);
    assert acc + [x[0]] + x[1..] == acc + x;
    OneEscaped(x, "\"" + rest, acc);
  }

  lemma {:induction false} OneEscaped(x: string, rest: string, acc: string)
    requires x != []
    ensures ParseChars(EscapeAll(x) + rest, acc) == ParseChars(EscapeAll(x[1..]) + rest, acc + [x[0]])
  {
    Assoc(EscapeChar(x[0]), EscapeAll(x[1..]), rest);
    EscapeCharRoundTrip(x[0], EscapeAll(x[1..]) + rest, acc);
  }

  /** A printed string is read back whatever follows it. */
  lemma {:induction false} StringRoundTrip(x: string, rest: string)
    ensures ParseString(RenderString(x) + rest) == Parsed(x, rest)
  {
    var s := RenderString(x) + rest;
    assert s[0] == '"' && s[1..] == EscapeAll(x) + ("\"" + rest);
    EscapeAllRoundTrip(x, rest, "");
    assert "" + x == x;
  }

  // ---------- Numbers ----------

  lemma {:induction false} NatRoundTrip(n: nat)
    ensures forall c :: c in RenderNat(n) ==> IsDigit(c)
    ensures DecimalValue(RenderNat(n)) == n
    ensures RenderNat(n) != []
  {
    var r := RenderNat(n);
    if n < 10 {
      assert r[..0] == [];
    } else {
      NatRoundTrip(n / 10);
      assert r[..|r| - 1] == RenderNat(n / 10);
    }
  }

  /** Every i64, its least value included, is read back when no digit follows. */
  lemma {:induction false} DigitsFirst(ds: string, rest: string)
    requires ds != [] && forall c :: c in ds ==> IsDigit(c)
    ensures !StartsWith(ds + rest, '-')
  {
    assert ds[0] in ds;
  }

  lemma {:induction false} NumberRoundTrip(n: I64, rest: string)
    requires rest != [] ==> !IsDigit(rest[0])
    ensures ParseNumber(RenderNumber(n) + rest) == Parsed(n, rest)
  {
    var ds := RenderNat(Abs(n));
    NatRoundTrip(Abs(n));
    DigitsFirst(ds, rest);
    NumberText(n < 0, ds, rest);
    Assoc(Sign(n < 0), ds, rest);
  }

  // ---------- Values ----------

  /** No printed value starts with whitespace or a closing bracket. */
  lemma {:induction false} RenderHead(v: JsonValue)
    ensures Render(v) != []
    ensures !IsWs(Render(v)[0]) && Render(v)[0] != ']'
    ensures v.Number? ==> Render(v)[0] == '-' || IsDigit(Render(v)[0])
  {
    if v.Number? {
      var ds := RenderNat(Abs(v.number));
      NatRoundTrip(Abs(v.number));
      assert ds[0] in ds;
    }
  }

  lemma {:induction false} LiteralRoundTrip(w: string, rest: string, literal: string, v: JsonValue)
    ensures ParseLiteral(w + rest, w, literal, v) == Parsed(v, rest)
  {
    if w == [] {
      assert w + rest == rest;
    } else {
      assert (w + rest)[1..] == w[1..] + rest;
      LiteralRoundTrip(w[1..], rest, literal, v);
    }
  }

  lemma {:induction false} SkipWsStops(s: string)
    requires s != [] && !IsWs(s[0])
    ensures SkipWs(s) == s
  {
  }

  /** The parser reads back a printed value and stops exactly at its end,
      whatever follows (after a number: anything but a digit). */
  lemma {:induction false} ValueRoundTrip(v: JsonValue, rest: string)
    requires v.Number? && rest != [] ==> !IsDigit(rest[0])
    ensures ParseValue(Render(v) + rest) == Parsed(v, rest)
    decreases v, 2, 0
  {
    match v
    case Null => ScalarRoundTrip(v, rest);
    case Bool(_) => ScalarRoundTrip(v, rest);
    case Number(_) => ScalarRoundTrip(v, rest);
    case Str(_) => ScalarRoundTrip(v, rest);
    case Array(_) => ArrayRoundTrip(v, rest);
    case Object(_) => ObjectRoundTrip(v, rest);
  }

  lemma {:induction false} ScalarRoundTrip(v: JsonValue, rest: string)
    requires !v.Array? && !v.Object?
    requires v.Number? && rest != [] ==> !IsDigit(rest[0])
    ensures ParseValue(Render(v) + rest) == Parsed(v, rest)
  {
    RenderHead(v);
    var s := Render(v) + rest;
    ValueDispatch(s);
    match v
    case Null => LiteralRoundTrip("null", rest, "null", v);
    case Bool(true) => LiteralRoundTrip("true", rest, "true", v);
    case Bool(false) => LiteralRoundTrip("false", rest, "false", v);
    case Number(n) => NumberRoundTrip(n, rest);
    case Str(x) => StringRoundTrip(x, rest);
  }

  /** Which rule reads a text, by its first character. */
  lemma {:induction false} ValueDispatch(t: string)
    requires t != [] && !IsWs(t[0])
    ensures t[0] == 'n' ==> ParseValue(t) == ParseLiteral(t, "null", "null", Null)
    ensures t[0] == 't' ==> ParseValue(t) == ParseLiteral(t, "true", "true", Bool(true))
    ensures t[0] == 'f' ==> ParseValue(t) == ParseLiteral(t, "false", "false", Bool(false))
    ensures t[0] == '"' && ParseString(t).Parsed? ==>
              ParseValue(t) == Parsed(Str(ParseString(t).value), ParseString(t).rest)
    ensures t[0] == '-' || IsDigit(t[0]) ==>
              (ParseNumber(t).Parsed? ==> ParseValue(t) == Parsed(Number(ParseNumber(t).value), ParseNumber(t).rest))
    ensures t[0] == '[' ==> ParseValue(t) == ParseElements(t[1..], [])
    ensures t[0] == '{' ==> ParseValue(t) == ParseEntries(t[1..], map[])
  {
    SkipWsStops(t);
  }

  lemma {:induction false} ArrayRoundTrip(v: JsonValue, rest: string)
    requires v.Array?
    ensures ParseValue(Render(v) + rest) == Parsed(v, rest)
    decreases v, 0, 0
  {
    ElementsRoundTrip(v.values, rest, []);
    ArrayText(RenderElements(v.values), rest);
    assert [] + v.values == v.values;
  }

  lemma {:induction false} ArrayText(elements: string, rest: string)
    ensures ParseValue("[" + elements + "]" + rest) == ParseElements(elements + ("]" + rest), [])
  {
    var s := "[" + elements + "]" + rest;
    assert s[0] == '[' && s[1..] == elements + ("]" + rest);
    ValueDispatch(s);
  }

  lemma {:induction false} WithAllEntries(v: JsonValue)
    requires v.Object?
    ensures WithEntries(map[], v, SortedKeys(v.entries.Keys)) == v.entries
  {
  }

  lemma {:induction false} ObjectText(entries: string, rest: string)
    ensures ParseValue("{" + entries + "}" + rest) == ParseEntries(entries + ("}" + rest), map[])
  {
    var s := "{" + entries + "}" + rest;
    assert s[0] == '{' && s[1..] == entries + ("}" + rest);
    ValueDispatch(s);
  }

  lemma {:induction false} AllEntriesRoundTrip(v: JsonValue, rest: string)
    requires v.Object?
    ensures ParseEntries(RenderEntries(v, SortedKeys(v.entries.Keys)) + ("}" + rest), map[]) == Parsed(v, rest)
    decreases v, 1, 0
  {
    EntriesRoundTrip(v, SortedKeys(v.entries.Keys), rest, map[]);
    WithAllEntries(v);
  }

  lemma {:induction false} ObjectRoundTrip(v: JsonValue, rest: string)
    requires v.Object?
    ensures ParseValue(Render(v) + rest) == Parsed(v, rest)
    decreases v, 1, 1
  {
    var entries := RenderEntries(v, SortedKeys(v.entries.Keys));
    AllEntriesRoundTrip(v, rest);
    ObjectText(entries, rest);
    assert Render(v) == "{" + entries + "}";
  }

  /** One element read, with what follows it: the end of the array or the rest. */
  lemma {:induction false} ElementsStep(s: string, v: JsonValue, tail: string, acc: seq<JsonValue>)
    requires s != [] && !IsWs(s[0]) && s[0] != ']'
    requires ParseValue(s) == Parsed(v, tail) && tail != []
    ensures tail[0] == ']' ==> ParseElements(s, acc) == Parsed(Array(acc + [v]), tail[1..])
    ensures tail[0] == ',' ==> ParseElements(s, acc) == ParseElements(tail[1..], acc + [v])
  {
    SkipWsStops(s);
    if !IsWs(tail[0]) { SkipWsStops(tail); }
  }

  lemma {:induction false} EmptyElements(rest: string, acc: seq<JsonValue>)
    ensures ParseElements("]" + rest, acc) == Parsed(Array(acc), rest)
  {
    var s := "]" + rest;
    assert s[0] == ']' && s[1..] == rest;
    SkipWsStops(s);
  }

  lemma {:induction false} ElementsRoundTrip(vs: seq<JsonValue>, rest: string, acc: seq<JsonValue>)
    ensures ParseElements(RenderElements(vs) + ("]" + rest), acc) == Parsed(Array(acc + vs), rest)
    decreases vs, 0, 0
  {
    var s := RenderElements(vs) + ("]" + rest);
    if vs == [] {
      assert s == "]" + rest;
      EmptyElements(rest, acc);
      assert acc + vs == acc;
    } else {
      var more := RenderElements(vs[1..]) + ("]" + rest);
      var tail := if |vs| == 1 then "]" + rest else "," + more;
      assert tail[1..] == if |vs| == 1 then rest else more;
      ElementsText(vs, rest);
      RenderHead(vs[0]);
      ValueRoundTrip(vs[0], tail);
      ElementsStep(s, vs[0], tail, acc);
      FirstOnto(acc, vs);
      if |vs| > 1 {
        ElementsRoundTrip(vs[1..], rest, acc + [vs[0]]);
      }
    }
  }

  lemma {:induction false} FirstOnto(acc: seq<JsonValue>, vs: seq<JsonValue>)
    requires vs != []
    ensures acc + [vs[0]] + vs[1..] == acc + vs
    ensures |vs| == 1 ==> acc + [vs[0]] == acc + vs
  {
  }

  lemma {:induction false} ElementsText(vs: seq<JsonValue>, rest: string)
    requires vs != []
    ensures RenderElements(vs) + ("]" + rest) == Render(vs[0]) +
              (if |vs| == 1 then "]" + rest else "," + (RenderElements(vs[1..]) + ("]" + rest)))
  {
  }

  /** `acc` updated with the entries of `v` under `ks`. */
  ghost function WithEntries(acc: map<string, JsonValue>, v: JsonValue, ks: seq<string>): map<string, JsonValue>
    requires v.Object? && forall k :: k in ks ==> k in v.entries
  {
    acc + (map k | k in ks :: v.entries[k])
  }

  lemma {:induction false} WithNoEntries(acc: map<string, JsonValue>, v: JsonValue)
    requires v.Object?
    ensures WithEntries(acc, v, []) == acc
  {
  }

  lemma {:induction false} WithEntriesStep(acc: map<string, JsonValue>, v: JsonValue, ks: seq<string>)
    requires v.Object? && ks != [] && forall k :: k in ks ==> k in v.entries
    ensures WithEntries(acc, v, ks) == WithEntries(acc[ks[0] := v.entries[ks[0]]], v, ks[1..])
    ensures |ks| == 1 ==> WithEntries(acc, v, ks) == acc[ks[0] := v.entries[ks[0]]]
  {
  }

  /** One entry read, with what follows it: the end of the object or the rest. */
  lemma {:induction false} EntriesStep(k: string, body: string, v: JsonValue, tail: string, acc: map<string, JsonValue>)
    requires ParseValue(body) == Parsed(v, tail) && tail != []
    ensures tail[0] == '}' ==>
              ParseEntries(RenderString(k) + (":" + body), acc) == Parsed(Object(acc[k := v]), tail[1..])
    ensures tail[0] == ',' ==>
              ParseEntries(RenderString(k) + (":" + body), acc) == ParseEntries(tail[1..], acc[k := v])
  {
    var colon := ":" + body;
    StringRoundTrip(k, colon);
    assert colon[1..] == body;
    SkipWsStops(colon);
    SkipWsStops(RenderString(k) + colon);
    if !IsWs(tail[0]) { SkipWsStops(tail); }
  }

  lemma {:induction false} EmptyEntries(rest: string, acc: map<string, JsonValue>)
    ensures ParseEntries("}" + rest, acc) == Parsed(Object(acc), rest)
  {
    var s := "}" + rest;
    assert s[0] == '}' && s[1..] == rest;
    SkipWsStops(s);
  }

  lemma {:induction false} EntriesText(v: JsonValue, ks: seq<string>, rest: string)
    requires v.Object? && ks != [] && forall k :: k in ks ==> k in v.entries
    ensures RenderEntries(v, ks) + ("}" + rest) == RenderString(ks[0]) + (":" + (Render(v.entries[ks[0]]) +
              (if |ks| == 1 then "}" + rest else "," + (RenderEntries(v, ks[1..]) + ("}" + rest)))))
  {
  }

  lemma {:induction false} EntriesRoundTrip(v: JsonValue, ks: seq<string>, rest: string, acc: map<string, JsonValue>)
    requires v.Object? && forall k :: k in ks ==> k in v.entries
    ensures ParseEntries(RenderEntries(v, ks) + ("}" + rest), acc) == Parsed(Object(WithEntries(acc, v, ks)), rest)
    decreases v, 0, |ks|
  {
    var s := RenderEntries(v, ks) + ("}" + rest);
    if ks == [] {
      assert s == "}" + rest;
      EmptyEntries(rest, acc);
      WithNoEntries(acc, v);
    } else {
      var k := ks[0];
      var value := v.entries[k];
      var more := RenderEntries(v, ks[1..]) + ("}" + rest);
      var tail := if |ks| == 1 then "}" + rest else "," + more;
      assert tail[1..] == if |ks| == 1 then rest else more;
      EntriesText(v, ks, rest);
      ValueRoundTrip(value, tail);
      EntriesStep(k, Render(value) + tail, value, tail, acc);
      WithEntriesStep(acc, v, ks);
      if |ks| > 1 {
        EntriesRoundTrip(v, ks[1..], rest, acc[k := value]);
      }
    }
  }

  // ---------- Main results ----------

  lemma {:induction false} ValueAfterWs(before: string, s: string)
    requires AllWs(before)
    ensures ParseValue(before + s) == ParseValue(s)
  {
    SkipWsPrefix(before, s);
  }

  /** `parse` of a printed value with whitespace before it and any text after it:
      the value when only whitespace follows, and a refusal otherwise. */
  lemma {:induction false} ParseOfRendered(v: JsonValue, before: string, after: string)
    requires AllWs(before)
    requires v.Number? && after != [] ==> !IsDigit(after[0])
    ensures Parse(before + Render(v) + after) == if AllWs(after) then Ok(v) else Err(TrailingContent)
  {
    Assoc(before, Render(v), after);
    ValueAfterWs(before, Render(v) + after);
    RenderHead(v);
    SkipWsStops(Render(v) + after);
    ValueRoundTrip(v, after);
    SkipWsEmptyIffAllWs(after);
  }

  /** Printing then parsing is the identity, whitespace around the text or not. */
  lemma {:induction false} RoundTrip(v: JsonValue, before: string, after: string)
    requires AllWs(before) && AllWs(after)
    ensures Parse(before + Render(v) + after) == Ok(v)
  {
    if after != [] { assert after[0] in after; }
    ParseOfRendered(v, before, after);
  }

  /** Two values print alike only when they are equal. */
  lemma {:induction false} RenderInjective(a: JsonValue, b: JsonValue)
    requires Render(a) == Render(b)
    ensures a == b
  {
    RoundTrip(a, [], []);
    RoundTrip(b, [], []);
    assert [] + Render(a) + [] == Render(a);
  }

  predicate Plain(s: string) {
    forall c :: c in s ==> !IsControl(c)
  }

  lemma {:induction false} EscapedIsPlain(x: string)
    ensures Plain(EscapeAll(x))
  {
    if x != [] { EscapedIsPlain(x[1..]); }
  }

  /** Printed text holds no control character, so it is one line whatever the
      strings and keys hold (RFC 8259, section 7). */
  lemma {:induction false} RenderedIsPlain(v: JsonValue)
    ensures Plain(Render(v))
    decreases v, 1
  {
    match v
    case Null =>
    case Bool(_) =>
    case Number(n) => NatRoundTrip(Abs(n));
    case Str(x) => EscapedIsPlain(x);
    case Array(vs) => ElementsArePlain(vs);
    case Object(entries) => EntriesArePlain(v, SortedKeys(entries.Keys));
  }

  lemma {:induction false} ElementsArePlain(vs: seq<JsonValue>)
    ensures Plain(RenderElements(vs))
    decreases vs, 0
  {
    if vs != [] {
      RenderedIsPlain(vs[0]);
      ElementsArePlain(vs[1..]);
    }
  }

  lemma {:induction false} EntriesArePlain(v: JsonValue, ks: seq<string>)
    requires v.Object? && forall k :: k in ks ==> k in v.entries
    ensures Plain(RenderEntries(v, ks))
    decreases v, 0, |ks|
  {
    if ks != [] {
      EscapedIsPlain(ks[0]);
      RenderedIsPlain(v.entries[ks[0]]);
      EntriesArePlain(v, ks[1..]);
    }
  }

  /** Printing what was parsed is a normal form: parsing it again changes nothing. */
  lemma {:induction false} NormalForm(source: string)
    requires Parse(source).Ok?
    ensures Parse(Render(Parse(source).value)) == Parse(source)
  {
    var v := Parse(source).value;
    RoundTrip(v, [], []);
    assert [] + Render(v) + [] == Render(v);
  }
}
