/** The recursive-descent parser and the string writer of `runtime/src/json.rs`,
    in their own imperative form, proved against the functions of `Json`. */
module JsonParser {
  import opened Text
  import opened Json

  /** A parser method did what the grammar says: it returned the value and left
      the grammar's rest unread, or it returned the grammar's error. */
  ghost predicate Agrees<T(!new)>(result: Result<T, JsonError>, rest: string, spec: Parsed<T>) {
    match spec
    case Parsed(v, r) => result == Ok(v) && rest == r
    case Failed(e) => result == Err(e)
  }

  class Parser {
    const chars: string
    var index: nat

    ghost predicate Valid()
      reads this
    {
      index <= |chars|
    }

    /** The characters still to be read. */
    ghost function Rest(): string
      reads this
      requires Valid()
    {
      chars[index..]
    }

    constructor (source: string)
      ensures Valid() && Rest() == source
    {
      chars := source;
      index := 0;
    }

    method Peek() returns (c: Option<char>)
      requires Valid()
      ensures c == if Rest() == [] then None else Some(Rest()[0])
    {
      c := if index < |chars| then Some(chars[index]) else None;
    }

    method Next() returns (c: Option<char>)
      requires Valid()
      modifies this
      ensures Valid()
      ensures c.None? ==> old(Rest()) == [] && Rest() == []
      ensures c.Some? ==> old(Rest()) != [] && c.value == old(Rest())[0] && Rest() == old(Rest())[1..]
    {
      c := Peek();
      if c.Some? {
        index := index + 1;
      }
    }

    method IsEof() returns (eof: bool)
      requires Valid()
      ensures eof <==> Rest() == []
    {
      eof := index >= |chars|;
    }

    method SkipWhitespace()
      requires Valid()
      modifies this
      ensures Valid() && Rest() == SkipWs(old(Rest()))
    {
      var c := Peek();
      while c.Some? && IsWs(c.value)
        invariant Valid()
        invariant c == if Rest() == [] then None else Some(Rest()[0])
        invariant SkipWs(Rest()) == SkipWs(old(Rest()))
        decreases |chars| - index
      {
        index := index + 1;
        c := Peek();
      }
    }

    method TryConsume(expected: char) returns (found: bool)
      requires Valid()
      modifies this
      ensures Valid()
      ensures found <==> StartsWith(old(Rest()), expected)
      ensures Rest() == if found then old(Rest())[1..] else old(Rest())
    {
      var c := Peek();
      found := c == Some(expected);
      if found {
        index := index + 1;
      }
    }

    method Expect(expected: char) returns (r: Result<(), JsonError>)
      requires Valid()
      modifies this
      ensures Valid() && Agrees(r, Rest(), Json.Expect(old(Rest()), expected))
    {
      var c := Next();
      match c {
        case Some(actual) => r := if actual == expected then Ok(()) else Err(ExpectedFound(expected, actual));
        case None => r := Err(ExpectedFoundEnd(expected));
      }
    }

    method ParseLiteral(expected: string, value: JsonValue) returns (r: Result<JsonValue, JsonError>)
      requires Valid()
      modifies this
      ensures Valid() && Agrees(r, Rest(), Json.ParseLiteral(old(Rest()), expected, expected, value))
    {
      var i := 0;
      while i < |expected|
        invariant Valid() && 0 <= i <= |expected|
        invariant Json.ParseLiteral(Rest(), expected[i..], expected, value)
               == Json.ParseLiteral(old(Rest()), expected, expected, value)
      {
        var c := Next();
        if c != Some(expected[i]) {
          return Err(InvalidLiteral(expected));
        }
        assert expected[i..][1..] == expected[i + 1..];
        i := i + 1;
      }
      r := Ok(value);
    }

    method ParseUnicodeEscape() returns (r: Result<char, JsonError>)
      requires Valid()
      modifies this
      ensures Valid() && Agrees(r, Rest(), ParseHex(old(Rest()), 4, 0))
    {
      var value: nat := 0;
      ghost var spec := ParseHex(Rest(), 4, 0);
      for i := 0 to 4
        invariant Valid() && ParseHex(Rest(), 4 - i, value) == spec
      {
        var c := Next();
        if c.None? {
          return Err(UnexpectedEndInUnicodeEscape);
        }
        var digit := HexValue(c.value);
        if digit.None? {
          return Err(InvalidUnicodeEscape);
        }
        value := value * 16 + digit.value;
      }
      if 0xD800 <= value < 0xE000 || value > 0x10FFFF {
        r := Err(InvalidUnicodeScalar);
      } else {
        r := Ok(value as char);
      }
    }

    method ParseEscape() returns (r: Result<char, JsonError>)
      requires Valid()
      modifies this
      ensures Valid() && Agrees(r, Rest(), Json.ParseEscape(old(Rest())))
    {
      var c := Next();
      match c {
        case None => r := Err(UnexpectedEndInEscape);
        case Some('u') => r := ParseUnicodeEscape();
        case Some(letter) =>
          var plain := Unescape(letter);
          r := if plain.Some? then Ok(plain.value) else Err(InvalidEscape(letter));
      }
    }

    method ParseString() returns (r: Result<string, JsonError>)
      requires Valid()
      modifies this
      ensures Valid() && Agrees(r, Rest(), Json.ParseString(old(Rest())))
    {
      var quote := Expect('"');
      if quote.Err? {
        return Err(quote.error);
      }
      var value := "";
      var c := Next();
      while c.Some?
        invariant Valid()
        invariant c.None? ==> Json.ParseString(old(Rest())) == Failed(UnterminatedString)
        invariant c.Some? ==> Json.ParseString(old(Rest())) == ParseChars([c.value] + Rest(), value)
        decreases |Rest()|, c.Some?
      {
        ghost var here := [c.value] + Rest();
        assert here[1..] == Rest();
        if c.value == '"' {
          return Ok(value);
        } else if c.value == '\\' {
          var escaped := ParseEscape();
          if escaped.Err? {
            return Err(escaped.error);
          }
          value := value + [escaped.value];
        } else {
          value := value + [c.value];
        }
        ghost var before := Rest();
        c := Next();
        if c.Some? { assert before == [c.value] + Rest(); }
      }
      r := Err(UnterminatedString);
    }

    /** The digit loop of `parse_number`. */
    method TakeDigits() returns (digits: string)
      requires Valid()
      modifies this
      ensures Valid() && old(Rest()) == digits + Rest()
      ensures forall d :: d in digits ==> IsDigit(d)
      ensures Rest() != [] ==> !IsDigit(Rest()[0])
    {
      ghost var first := index;
      digits := "";
      var c := Peek();
      while c.Some? && IsDigit(c.value)
        invariant Valid() && first <= index && digits == chars[first..index]
        invariant c == if Rest() == [] then None else Some(Rest()[0])
        invariant forall d :: d in digits ==> IsDigit(d)
        decreases |chars| - index
      {
        digits := digits + [c.value];
        index := index + 1;
        c := Peek();
      }
    }

    method ParseNumber() returns (r: Result<I64, JsonError>)
      requires Valid()
      modifies this
      ensures Valid() && Agrees(r, Rest(), Json.ParseNumber(old(Rest())))
    {
      var negative := TryConsume('-');
      assert old(Rest()) == Sign(negative) + Rest();
      var digits := TakeDigits();
      NumberText(negative, digits, Rest());
      if digits == [] {
        return Err(InvalidNumber);
      }
      var value := ToI64(negative, digits);
      r := if value.Some? then Ok(value.value) else Err(NumberOutOfRange);
    }

    method ParseValue() returns (r: Result<JsonValue, JsonError>)
      requires Valid()
      modifies this
      ensures Valid() && Agrees(r, Rest(), Json.ParseValue(old(Rest())))
      decreases |Rest()|, 1
    {
      SkipWhitespace();
      var c := Peek();
      if c.None? {
        r := Err(UnexpectedEnd);
      } else if c.value == 'n' {
        r := ParseLiteral("null", Null);
      } else if c.value == 't' {
        r := ParseLiteral("true", Bool(true));
      } else if c.value == 'f' {
        r := ParseLiteral("false", Bool(false));
      } else if c.value == '"' {
        var text := ParseString();
        r := if text.Ok? then Ok(Str(text.value)) else Err(text.error);
      } else if c.value == '[' {
        r := ParseArray();
      } else if c.value == '{' {
        r := ParseObject();
      } else if c.value == '-' || IsDigit(c.value) {
        var number := ParseNumber();
        r := if number.Ok? then Ok(Number(number.value)) else Err(number.error);
      } else {
        r := Err(UnexpectedCharacter(c.value));
      }
    }

    method ParseArray() returns (r: Result<JsonValue, JsonError>)
      requires Valid() && StartsWith(Rest(), '[')
      modifies this
      ensures Valid() && Agrees(r, Rest(), ParseElements(old(Rest())[1..], []))
      decreases |Rest()|, 0
    {
      var open := Expect('[');
      var values := [];
      while true
        invariant Valid() && |Rest()| < old(|Rest()|)
        invariant ParseElements(Rest(), values) == ParseElements(old(Rest())[1..], [])
        decreases |Rest()|
      {
        SkipWhitespace();
        var closed := TryConsume(']');
        if closed {
          return Ok(Array(values));
        }
        var v := ParseValue();
        if v.Err? {
          return v;
        }
        SkipWhitespace();
        closed := TryConsume(']');
        if closed {
          return Ok(Array(values + [v.value]));
        }
        var comma := Expect(',');
        if comma.Err? {
          return Err(comma.error);
        }
        values := values + [v.value];
      }
    }

    /** One turn of the object loop: a key, a colon and a value. */
    method ParseEntry() returns (r: Result<(string, JsonValue), JsonError>)
      requires Valid()
      modifies this
      ensures Valid() && Agrees(r, Rest(), Json.ParseEntry(old(Rest())))
      decreases |Rest()|, 2
    {
      var key := ParseString();
      if key.Err? {
        return Err(key.error);
      }
      SkipWhitespace();
      var colon := Expect(':');
      if colon.Err? {
        return Err(colon.error);
      }
      var v := ParseValue();
      r := if v.Ok? then Ok((key.value, v.value)) else Err(v.error);
    }

    method ParseObject() returns (r: Result<JsonValue, JsonError>)
      requires Valid() && StartsWith(Rest(), '{')
      modifies this
      ensures Valid() && Agrees(r, Rest(), ParseEntries(old(Rest())[1..], map[]))
      decreases |Rest()|, 0
    {
      var open := Expect('{');
      var entries := map[];
      while true
        invariant Valid() && |Rest()| < old(|Rest()|)
        invariant ParseEntries(Rest(), entries) == ParseEntries(old(Rest())[1..], map[])
        decreases |Rest()|
      {
        SkipWhitespace();
        var closed := TryConsume('}');
        if closed {
          return Ok(Object(entries));
        }
        var entry := ParseEntry();
        if entry.Err? {
          return Err(entry.error);
        }
        entries := entries[entry.value.0 := entry.value.1];
        SkipWhitespace();
        closed := TryConsume('}');
        if closed {
          return Ok(Object(entries));
        }
        var comma := Expect(',');
        if comma.Err? {
          return Err(comma.error);
        }
      }
    }
  }

  /** `JsonValue::parse`. */
  method Parse(source: string) returns (r: Result<JsonValue, JsonError>)
    ensures r == Json.Parse(source)
  {
    var parser := new Parser(source);
    r := parser.ParseValue();
    if r.Err? {
      return;
    }
    parser.SkipWhitespace();
    var eof := parser.IsEof();
    if !eof {
      r := Err(TrailingContent);
    }
  }

  /** `push_unicode_escape`: four nibbles, the highest first. */
  method PushUnicodeEscape(rendered: string, control: char) returns (r: string)
    requires control as int < 0x10000
    ensures r == rendered + ['\\', 'u'] + Hex4(control as int)
  {
    var value := control as int;
    var divisors := [4096, 256, 16, 1];
    r := rendered + ['\\', 'u'];
    for i := 0 to 4
      invariant r == rendered + ['\\', 'u'] + Hex4(value)[..i]
    {
      r := r + [HexDigit(value / divisors[i] % 16)];
      assert HexDigit(value / divisors[i] % 16) == Hex4(value)[i];
    }
  }

  /** `render_string`: the quoted text, each character escaped in turn. */
  method WriteString(value: string) returns (rendered: string)
    ensures rendered == RenderString(value)
  {
    rendered := "\"";
    for i := 0 to |value|
      invariant rendered + EscapeAll(value[i..]) == "\"" + EscapeAll(value)
    {
      var c := value[i];
      assert value[i..][1..] == value[i + 1..];
      ghost var before, todo := rendered, EscapeAll(value[i + 1..]);
      var letter := ShortEscape(c);
      if letter.Some? {
        rendered := rendered + ['\\', letter.value];
      } else if IsControl(c) {
        rendered := PushUnicodeEscape(rendered, c);
        assert rendered == before + EscapeChar(c);
      } else {
        rendered := rendered + [c];
      }
      Assoc(before, EscapeChar(c), todo);
    }
    rendered := rendered + "\"";
  }
}
