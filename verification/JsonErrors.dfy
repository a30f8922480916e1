/** How parsing fails: for each error of `JsonValue::parse`, the texts that lead to it. */
module JsonErrors {
  import opened Text
  import opened Json
  import opened JsonRoundTrip

  /** Four characters are skipped, and no others: they may stand before a value, say. */
  lemma {:induction false} FourBlanks(c: char)
    ensures SkipWs([c] + "null") == "null" <==> c in " \n\r\t"
  {
    var s := [c] + "null";
    assert s[1..] == "null" && SkipWs("null") == "null";
  }

  // ---------- Where a value should begin ----------

  /** Nothing but whitespace. */
  lemma {:induction false} NothingThere(w: string)
    requires AllWs(w)
    ensures Parse(w) == Err(UnexpectedEnd)
  {
    SkipWsEmptyIffAllWs(w);
  }

  /** A character with which no value begins. */
  lemma {:induction false} NoValueBegins(w: string, c: char, rest: string)
    requires AllWs(w) && !IsWs(c) && c !in {'n', 't', 'f', '"', '[', '{', '-'} && !('0' <= c <= '9')
    ensures Parse(w + ([c] + rest)) == Err(UnexpectedCharacter(c))
  {
    ValueAfterWs(w, [c] + rest);
    SkipWsStops([c] + rest);
  }

  /** The beginning of a literal, and then something else. */
  lemma {:induction false} BrokenLiteral(w: string, word: string, k: nat, rest: string)
    requires AllWs(w) && word in {"null", "true", "false"} && 0 < k < |word| && !StartsWith(rest, word[k])
    ensures Parse(w + (word[..k] + rest)) == Err(InvalidLiteral(word))
  {
    var s := word[..k] + rest;
    ValueAfterWs(w, s);
    SkipWsStops(s);
    LiteralBreaks(word, 0, k, rest, word, Null);
    LiteralBreaks(word, 0, k, rest, word, Bool(true));
    LiteralBreaks(word, 0, k, rest, word, Bool(false));
    assert word[0..] == word && word[0..k] == word[..k];
  }

  lemma {:induction false} LiteralBreaks(word: string, i: nat, k: nat, rest: string, literal: string, v: JsonValue)
    requires i <= k < |word| && !StartsWith(rest, word[k])
    ensures ParseLiteral(word[i..k] + rest, word[i..], literal, v) == Failed(InvalidLiteral(literal))
    decreases k - i
  {
    var s := word[i..k] + rest;
    if i < k {
      assert s[1..] == word[i + 1..k] + rest && word[i..][1..] == word[i + 1..];
      LiteralBreaks(word, i + 1, k, rest, literal, v);
    } else {
      assert s == rest;
    }
  }

  // ---------- Inside a string ----------

  lemma {:induction false} InsideString(x: string, rest: string)
    ensures ParseString("\"" + (EscapeAll(x) + rest)) == ParseChars(rest, x)
  {
    var s := "\"" + (EscapeAll(x) + rest);
    assert s[1..] == EscapeAll(x) + rest;
    CharsSkipped(x, rest, "");
    assert "" + x == x;
  }

  lemma {:induction false} CharsSkipped(x: string, rest: string, acc: string)
    ensures ParseChars(EscapeAll(x) + rest, acc) == ParseChars(rest, acc + x)
  {
    if x == "" {
      assert EscapeAll(x) + rest == rest && acc + x == acc;
    } else {
      OneEscaped(x, rest, acc);
      CharsSkipped(x[1..], rest, acc + [x[0]]);
      OneMore(acc, x);
    }
  }

  lemma {:induction false} OneMore(acc: string, x: string)
    requires x != ""
    ensures acc + [x[0]] + x[1..] == acc + x
  {
  }

  /** An error while the characters of a string are read is the error of the whole text. */
  lemma {:induction false} StringFails(w: string, x: string, rest: string, e: JsonError)
    requires AllWs(w) && ParseChars(rest, x) == Failed(e)
    ensures Parse(w + ("\"" + (EscapeAll(x) + rest))) == Err(e)
  {
    var s := "\"" + (EscapeAll(x) + rest);
    InsideString(x, rest);
    ValueAfterWs(w, s);
    SkipWsStops(s);
  }

  /** No closing quote. */
  lemma {:induction false} NoClosingQuote(w: string, x: string)
    requires AllWs(w)
    ensures Parse(w + ("\"" + EscapeAll(x))) == Err(UnterminatedString)
  {
    StringFails(w, x, "", UnterminatedString);
    assert EscapeAll(x) + "" == EscapeAll(x);
  }

  /** A backslash at the end, or before a letter that is no escape. */
  lemma {:induction false} BadEscape(w: string, x: string, c: char, rest: string)
    requires AllWs(w) && c !in {'"', '\\', '/', 'b', 'f', 'n', 'r', 't', 'u'}
    ensures Parse(w + ("\"" + (EscapeAll(x) + "\\"))) == Err(UnexpectedEndInEscape)
    ensures Parse(w + ("\"" + (EscapeAll(x) + ("\\" + ([c] + rest))))) == Err(InvalidEscape(c))
  {
    assert "\\"[1..] == "" && ("\\" + ([c] + rest))[1..] == [c] + rest;
    StringFails(w, x, "\\", UnexpectedEndInEscape);
    StringFails(w, x, "\\" + ([c] + rest), InvalidEscape(c));
  }

  lemma {:induction false} HexFails(digits: string, n: nat, value: nat, rest: string)
    requires |digits| < n && forall c :: c in digits ==> HexValue(c).Some?
    requires rest != "" ==> HexValue(rest[0]).None?
    ensures ParseHex(digits + rest, n, value) ==
            Failed(if rest == "" then UnexpectedEndInUnicodeEscape else InvalidUnicodeEscape)
    decreases |digits|
  {
    if digits == "" {
      assert digits + rest == rest;
    } else {
      assert digits[0] in digits && (digits + rest)[1..] == digits[1..] + rest;
      HexFails(digits[1..], n - 1, value * 16 + HexValue(digits[0]).value, rest);
    }
  }

  /** Fewer than four digits after `\u`: the text ends, or something else follows. */
  lemma {:induction false} ShortUnicode(w: string, x: string, digits: string, rest: string)
    requires AllWs(w) && |digits| < 4 && forall c :: c in digits ==> HexValue(c).Some?
    requires rest != "" ==> HexValue(rest[0]).None?
    ensures Parse(w + ("\"" + (EscapeAll(x) + ("\\u" + (digits + rest))))) ==
            Err(if rest == "" then UnexpectedEndInUnicodeEscape else InvalidUnicodeEscape)
  {
    var s := "\\u" + (digits + rest);
    assert s[1..][1..] == digits + rest;
    HexFails(digits, 4, 0, rest);
    StringFails(w, x, s, if rest == "" then UnexpectedEndInUnicodeEscape else InvalidUnicodeEscape);
  }

  /** A surrogate: surrogate pairs are not combined but refused. */
  lemma {:induction false} SurrogateRefused(w: string, x: string, n: nat, rest: string)
    requires AllWs(w) && 0xD800 <= n < 0xE000
    ensures Parse(w + ("\"" + (EscapeAll(x) + ("\\u" + (Hex4(n) + rest))))) == Err(InvalidUnicodeScalar)
  {
    var s := "\\u" + (Hex4(n) + rest);
    assert s[1..][1..] == Hex4(n) + rest;
    HexDigits(n / 4096, n / 256 % 16, n / 16 % 16, n % 16, rest, 4);
    NibblesValue(n);
    StringFails(w, x, s, InvalidUnicodeScalar);
  }

  // ---------- Numbers ----------

  lemma {:induction false} NumberBegins(negative: bool, t: string)
    requires negative || (t != "" && IsDigit(t[0]))
    ensures var s := Sign(negative) + t;
            s != "" && !IsWs(s[0]) && (ParseNumber(s).Failed? ==> ParseValue(s) == Failed(ParseNumber(s).error))
  {
    SkipWsStops(Sign(negative) + t);
  }

  /** A minus sign without digits. */
  lemma {:induction false} NoDigits(w: string, rest: string)
    requires AllWs(w) && (rest != "" ==> !IsDigit(rest[0]))
    ensures Parse(w + ("-" + rest)) == Err(InvalidNumber)
  {
    assert "" + rest == rest;
    NumberText(true, "", rest);
    NumberBegins(true, rest);
    ValueAfterWs(w, "-" + rest);
  }

  /** Digits beyond 64 bits. */
  lemma {:induction false} OutOfRange(w: string, negative: bool, ds: string, rest: string)
    requires AllWs(w) && ds != "" && (forall c :: c in ds ==> IsDigit(c)) && (rest != "" ==> !IsDigit(rest[0]))
    requires if negative then DecimalValue(ds) > 0x8000_0000_0000_0000 else DecimalValue(ds) > 0x7FFF_FFFF_FFFF_FFFF
    ensures Parse(w + (Sign(negative) + (ds + rest))) == Err(NumberOutOfRange)
  {
    assert ds[0] in ds;
    DigitsFirst(ds, rest);
    NumberText(negative, ds, rest);
    NumberBegins(negative, ds + rest);
    ValueAfterWs(w, Sign(negative) + (ds + rest));
  }

  // ---------- Arrays and objects ----------

  lemma {:induction false} ArrayBegins(s: string)
    ensures ParseValue("[" + s) == ParseElements(s, [])
  {
    ValueDispatch("[" + s);
    assert ("[" + s)[1..] == s;
  }

  lemma {:induction false} ObjectBegins(s: string)
    ensures ParseValue("{" + s) == ParseEntries(s, map[])
  {
    ValueDispatch("{" + s);
    assert ("{" + s)[1..] == s;
  }

  /** After an element, neither a comma nor the end of the array. */
  lemma {:induction false} NoComma(v: JsonValue, rest: string)
    requires rest != "" ==> !IsWs(rest[0]) && rest[0] != ']' && rest[0] != ',' && (v.Number? ==> !IsDigit(rest[0]))
    ensures Parse("[" + (Render(v) + rest)) ==
            Err(if rest == "" then ExpectedFoundEnd(',') else ExpectedFound(',', rest[0]))
  {
    var s := Render(v) + rest;
    RenderHead(v);
    ArrayBegins(s);
    SkipWsStops(s);
    ValueRoundTrip(v, rest);
    if rest != "" { SkipWsStops(rest); }
    assert ParseElements(s, []) == Failed(if rest == "" then ExpectedFoundEnd(',') else ExpectedFound(',', rest[0]));
  }

  /** An element that fails makes the array fail alike. */
  lemma {:induction false} ElementFails(s: string, e: JsonError)
    requires s != "" && !IsWs(s[0]) && s[0] != ']' && ParseValue(s) == Failed(e)
    ensures Parse("[" + s) == Err(e)
  {
    ArrayBegins(s);
    SkipWsStops(s);
    assert ParseElements(s, []) == Failed(e);
  }

  lemma {:induction false} ObjectFails(s: string, e: JsonError)
    requires s != "" ==> !IsWs(s[0]) && s[0] != '}'
    requires ParseEntry(s) == Failed(e)
    ensures Parse("{" + s) == Err(e)
  {
    ObjectBegins(s);
    if s != "" { SkipWsStops(s); }
    assert ParseEntries(s, map[]) == Failed(e);
  }

  /** No key where one must be. */
  lemma {:induction false} NoKey(rest: string)
    requires rest != "" ==> !IsWs(rest[0]) && rest[0] != '}' && rest[0] != '"'
    ensures Parse("{" + rest) == Err(if rest == "" then ExpectedFoundEnd('"') else ExpectedFound('"', rest[0]))
  {
    ObjectFails(rest, if rest == "" then ExpectedFoundEnd('"') else ExpectedFound('"', rest[0]));
  }

  /** No colon after a key. */
  lemma {:induction false} NoColon(k: string, rest: string)
    requires rest != "" ==> !IsWs(rest[0]) && rest[0] != ':'
    ensures Parse("{" + (RenderString(k) + rest)) ==
            Err(if rest == "" then ExpectedFoundEnd(':') else ExpectedFound(':', rest[0]))
  {
    StringRoundTrip(k, rest);
    if rest != "" { SkipWsStops(rest); }
    ObjectFails(RenderString(k) + rest, if rest == "" then ExpectedFoundEnd(':') else ExpectedFound(':', rest[0]));
  }

  /** A member value that fails makes the object fail alike. */
  lemma {:induction false} MemberFails(k: string, s: string, e: JsonError)
    requires ParseValue(s) == Failed(e)
    ensures Parse("{" + (RenderString(k) + (":" + s))) == Err(e)
  {
    var colon := ":" + s;
    StringRoundTrip(k, colon);
    SkipWsStops(colon);
    assert colon[1..] == s;
    ObjectFails(RenderString(k) + colon, e);
  }

  /** After a member, neither a comma nor the end of the object. */
  lemma {:induction false} NoMemberComma(k: string, v: JsonValue, rest: string)
    requires rest != "" ==> !IsWs(rest[0]) && rest[0] != '}' && rest[0] != ',' && (v.Number? ==> !IsDigit(rest[0]))
    ensures Parse("{" + (RenderString(k) + (":" + (Render(v) + rest)))) ==
            Err(if rest == "" then ExpectedFoundEnd(',') else ExpectedFound(',', rest[0]))
  {
    var colon := ":" + (Render(v) + rest);
    var s := RenderString(k) + colon;
    ValueRoundTrip(v, rest);
    StringRoundTrip(k, colon);
    SkipWsStops(colon);
    assert colon[1..] == Render(v) + rest;
    assert ParseEntry(s) == Parsed((k, v), rest);
    ObjectBegins(s);
    EntryThen(s, k, v, rest);
  }

  lemma {:induction false} EntryThen(s: string, k: string, v: JsonValue, rest: string)
    requires s != "" && !IsWs(s[0]) && s[0] != '}' && ParseEntry(s) == Parsed((k, v), rest)
    requires rest != "" ==> !IsWs(rest[0]) && rest[0] != '}' && rest[0] != ','
    ensures ParseEntries(s, map[]) ==
            Failed(if rest == "" then ExpectedFoundEnd(',') else ExpectedFound(',', rest[0]))
  {
    SkipWsStops(s);
    if rest != "" { SkipWsStops(rest); }
  }
}
