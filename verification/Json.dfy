/** Model of `runtime/src/json.rs`: the JSON value, its printer, and the grammar
    its parser accepts, each as a function of the remaining characters.
    `JsonParser` holds the index-based parser itself. */
module Json {
  import opened Text
  import opened Ordering

  const I64_MIN := -0x8000_0000_0000_0000
  const I64_MAX := 0x7FFF_FFFF_FFFF_FFFF

  type I64 = n: int | I64_MIN <= n <= I64_MAX

  /** `Object` holds a map: `BTreeMap` values are equal when their entries are. */
  datatype JsonValue =
    | Null
    | Bool(flag: bool)
    | Number(number: I64)
    | Str(text: string)
    | Array(values: seq<JsonValue>)
    | Object(entries: map<string, JsonValue>)

  datatype JsonError =
    | UnexpectedCharacter(c: char)
    | UnexpectedEnd
    | InvalidLiteral(literal: string)
    | UnterminatedString
    | InvalidEscape(c: char)
    | UnexpectedEndInEscape
    | UnexpectedEndInUnicodeEscape
    | InvalidUnicodeEscape
    | InvalidUnicodeScalar
    | InvalidNumber
    | NumberOutOfRange
    | ExpectedFound(expected: char, actual: char)
    | ExpectedFoundEnd(expected: char)
    | TrailingContent

  // ---------- Printer ----------

  /** `char::is_control`: the C0 controls, DEL and the C1 controls. */
  predicate IsControl(c: char) {
    c < ' ' || '\U{7F}' <= c <= '\U{9F}'
  }

  /** The four hexadecimal digits of a value below 65536. */
  function Hex4(value: int): string
    requires 0 <= value < 0x10000
  {
    [HexDigit(value / 4096), HexDigit(value / 256 % 16), HexDigit(value / 16 % 16), HexDigit(value % 16)]
  }

  /** The letter of a two-character escape. */
  function ShortEscape(c: char): Option<char> {
    if c == '"' || c == '\\' then Some(c)
    else if c == '\n' then Some('n')
    else if c == '\r' then Some('r')
    else if c == '\t' then Some('t')
    else if c == '\U{08}' then Some('b')
    else if c == '\U{0C}' then Some('f')
    else None
  }

  function EscapeChar(c: char): string {
    match ShortEscape(c)
    case Some(letter) => ['\\', letter]
    case None => if IsControl(c) then ['\\', 'u'] + Hex4(c as int) else [c]
  }

  function EscapeAll(s: string): string {
    if s == [] then [] else EscapeChar(s[0]) + EscapeAll(s[1..])
  }

  function RenderString(s: string): string {
    "\"" + EscapeAll(s) + "\""
  }

  function DigitChar(d: int): char
    requires 0 <= d < 10
  {
    '0' + d as char
  }

  function RenderNat(n: nat): string {
    if n < 10 then [DigitChar(n)] else RenderNat(n / 10) + [DigitChar(n % 10)]
  }

  function Abs(n: int): nat {
    if n < 0 then -n else n
  }

  function Sign(negative: bool): string {
    if negative then "-" else ""
  }

  function RenderNumber(n: int): string {
    Sign(n < 0) + RenderNat(Abs(n))
  }

  ghost function Render(v: JsonValue): string
    decreases v
  {
    match v
    case Null => "null"
    case Bool(b) => if b then "true" else "false"
    case Number(n) => RenderNumber(n)
    case Str(s) => RenderString(s)
    case Array(vs) => "[" + RenderElements(vs) + "]"
    case Object(entries) => "{" + RenderEntries(v, SortedKeys(entries.Keys)) + "}"
  }

  /** The elements joined by commas. */
  ghost function RenderElements(vs: seq<JsonValue>): string
    decreases vs
  {
    if vs == [] then ""
    else if |vs| == 1 then Render(vs[0])
    else Render(vs[0]) + "," + RenderElements(vs[1..])
  }

  /** The entries of the object `v` under the keys `ks`, joined by commas. */
  ghost function RenderEntries(v: JsonValue, ks: seq<string>): string
    requires v.Object? && forall k :: k in ks ==> k in v.entries
    decreases v, |ks|
  {
    if ks == [] then ""
    else if |ks| == 1 then RenderString(ks[0]) + ":" + Render(v.entries[ks[0]])
    else RenderString(ks[0]) + ":" + Render(v.entries[ks[0]]) + "," + RenderEntries(v, ks[1..])
  }

  // ---------- Grammar ----------

  /** A successful parse and the characters it leaves, or the error it stops with. */
  datatype Parsed<+T> = Parsed(value: T, rest: string) | Failed(error: JsonError)

  predicate IsWs(c: char) {
    c == ' ' || c == '\n' || c == '\r' || c == '\t'
  }

  predicate AllWs(s: string) {
    forall c :: c in s ==> IsWs(c)
  }

  function SkipWs(s: string): (r: string)
    ensures |r| <= |s|
    ensures r != [] ==> !IsWs(r[0])
  {
    if s != [] && IsWs(s[0]) then SkipWs(s[1..]) else s
  }

  predicate StartsWith(s: string, c: char) {
    s != [] && s[0] == c
  }

  predicate IsDigit(c: char) {
    '0' <= c <= '9'
  }

  function Expect(s: string, c: char): (r: Parsed<()>)
    ensures r.Parsed? <==> StartsWith(s, c)
    ensures r.Parsed? ==> r.rest == s[1..]
  {
    if s == [] then Failed(ExpectedFoundEnd(c))
    else if s[0] == c then Parsed((), s[1..])
    else Failed(ExpectedFound(c, s[0]))
  }

  /** Match the characters of a literal one by one. */
  function ParseLiteral(s: string, todo: string, literal: string, v: JsonValue): (r: Parsed<JsonValue>)
    ensures r.Parsed? ==> |r.rest| == |s| - |todo|
    decreases |todo|
  {
    if todo == [] then Parsed(v, s)
    else if !StartsWith(s, todo[0]) then Failed(InvalidLiteral(literal))
    else ParseLiteral(s[1..], todo[1..], literal, v)
  }

  /** The digits of a Unicode escape, `n` of them still to read. */
  function ParseHex(s: string, n: nat, value: nat): (r: Parsed<char>)
    ensures r.Parsed? ==> |r.rest| == |s| - n
    decreases n
  {
    if n == 0 then
      if 0xD800 <= value < 0xE000 || value > 0x10FFFF then Failed(InvalidUnicodeScalar)
      else Parsed(value as char, s)
    else if s == [] then Failed(UnexpectedEndInUnicodeEscape)
    else match HexValue(s[0])
      case None => Failed(InvalidUnicodeEscape)
      case Some(d) => ParseHex(s[1..], n - 1, value * 16 + d)
  }

  /** The character a two-character escape stands for. */
  function Unescape(letter: char): Option<char> {
    match letter
    case '"' => Some('"')
    case '\\' => Some('\\')
    case '/' => Some('/')
    case 'b' => Some('\U{08}')
    case 'f' => Some('\U{0C}')
    case 'n' => Some('\n')
    case 'r' => Some('\r')
    case 't' => Some('\t')
    case _ => None
  }

  function ParseEscape(s: string): (r: Parsed<char>)
    ensures r.Parsed? ==> |r.rest| < |s|
  {
    if s == [] then Failed(UnexpectedEndInEscape)
    else if s[0] == 'u' then ParseHex(s[1..], 4, 0)
    else match Unescape(s[0])
      case Some(c) => Parsed(c, s[1..])
      case None => Failed(InvalidEscape(s[0]))
  }

  /** The characters of a string after its opening quote; `acc` holds those already read. */
  function ParseChars(s: string, acc: string): (r: Parsed<string>)
    ensures r.Parsed? ==> |r.rest| < |s|
    decreases |s|
  {
    if s == [] then Failed(UnterminatedString)
    else if s[0] == '"' then Parsed(acc, s[1..])
    else if s[0] == '\\' then
      match ParseEscape(s[1..])
      case Failed(e) => Failed(e)
      case Parsed(c, rest) => ParseChars(rest, acc + [c])
    else ParseChars(s[1..], acc + [s[0]])
  }

  function ParseString(s: string): (r: Parsed<string>)
    ensures r.Parsed? ==> |r.rest| < |s|
  {
    match Expect(s, '"')
    case Failed(e) => Failed(e)
    case Parsed(_, rest) => ParseChars(rest, "")
  }

  function DigitsLen(s: string): (n: nat)
    ensures n <= |s|
    ensures forall i :: 0 <= i < n ==> IsDigit(s[i])
    ensures n < |s| ==> !IsDigit(s[n])
  {
    if s != [] && IsDigit(s[0]) then 1 + DigitsLen(s[1..]) else 0
  }

  function DigitValue(c: char): nat
    requires IsDigit(c)
  {
    c as int - '0' as int
  }

  /** The value of a digit string. */
  function DecimalValue(s: string): nat
    requires forall c :: c in s ==> IsDigit(c)
  {
    if s == [] then 0
    else
      assert s[|s| - 1] in s;
      10 * DecimalValue(s[..|s| - 1]) + DigitValue(s[|s| - 1])
  }

  /** `str::parse::<i64>` on an optional sign and at least one digit. */
  function ToI64(negative: bool, digits: string): Option<I64>
    requires forall c :: c in digits ==> IsDigit(c)
  {
    var magnitude: int := DecimalValue(digits);
    if negative then
      if magnitude <= -I64_MIN then Some(-magnitude) else None
    else
      if magnitude <= I64_MAX then Some(magnitude) else None
  }

  function ParseNumber(s: string): (r: Parsed<I64>)
    ensures r.Parsed? ==> |r.rest| < |s|
  {
    var negative := StartsWith(s, '-');
    var t := if negative then s[1..] else s;
    var n := DigitsLen(t);
    if n == 0 then Failed(InvalidNumber)
    else match ToI64(negative, t[..n])
      case None => Failed(NumberOutOfRange)
      case Some(v) => Parsed(v, t[n..])
  }

  lemma {:induction false} DigitsLenOf(ds: string, rest: string)
    requires forall c :: c in ds ==> IsDigit(c)
    requires rest != [] ==> !IsDigit(rest[0])
    ensures DigitsLen(ds + rest) == |ds|
  {
    if ds == [] {
      assert ds + rest == rest;
    } else {
      assert (ds + rest)[1..] == ds[1..] + rest;
      DigitsLenOf(ds[1..], rest);
    }
  }

  /** What a sign, the digits after it and a text without leading digit are read as. */
  lemma {:induction false} NumberText(negative: bool, ds: string, rest: string)
    requires forall c :: c in ds ==> IsDigit(c)
    requires rest != [] ==> !IsDigit(rest[0])
    requires !negative ==> !StartsWith(ds + rest, '-')
    ensures ParseNumber(Sign(negative) + (ds + rest)) ==
            if ds == [] then Failed(InvalidNumber)
            else match ToI64(negative, ds)
              case None => Failed(NumberOutOfRange)
              case Some(v) => Parsed(v, rest)
  {
    var s := Sign(negative) + (ds + rest);
    assert StartsWith(s, '-') == negative;
    assert (if negative then s[1..] else s) == ds + rest;
    assert (ds + rest)[..|ds|] == ds && (ds + rest)[|ds|..] == rest;
    DigitsLenOf(ds, rest);
  }

  function ParseValue(s: string): (r: Parsed<JsonValue>)
    ensures r.Parsed? ==> |r.rest| < |s|
    decreases |s|, 0
  {
    var t := SkipWs(s);
    if t == [] then Failed(UnexpectedEnd)
    else if t[0] == 'n' then ParseLiteral(t, "null", "null", Null)
    else if t[0] == 't' then ParseLiteral(t, "true", "true", Bool(true))
    else if t[0] == 'f' then ParseLiteral(t, "false", "false", Bool(false))
    else if t[0] == '"' then
      (match ParseString(t) case Failed(e) => Failed(e) case Parsed(x, rest) => Parsed(Str(x), rest))
    else if t[0] == '[' then ParseElements(t[1..], [])
    else if t[0] == '{' then ParseEntries(t[1..], map[])
    else if t[0] == '-' || IsDigit(t[0]) then
      (match ParseNumber(t) case Failed(e) => Failed(e) case Parsed(x, rest) => Parsed(Number(x), rest))
    else Failed(UnexpectedCharacter(t[0]))
  }

  /** The rest of an array; `acc` holds the elements already read. */
  function ParseElements(s: string, acc: seq<JsonValue>): (r: Parsed<JsonValue>)
    ensures r.Parsed? ==> |r.rest| < |s|
    decreases |s|, 1
  {
    var t := SkipWs(s);
    if StartsWith(t, ']') then Parsed(Array(acc), t[1..])
    else match ParseValue(t)
      case Failed(e) => Failed(e)
      case Parsed(v, rest) =>
        var u := SkipWs(rest);
        if StartsWith(u, ']') then Parsed(Array(acc + [v]), u[1..])
        else match Expect(u, ',')
          case Failed(e) => Failed(e)
          case Parsed(_, next) => ParseElements(next, acc + [v])
  }

  /** A key, a colon and a value. */
  function ParseEntry(s: string): (r: Parsed<(string, JsonValue)>)
    ensures r.Parsed? ==> |r.rest| < |s|
    decreases |s|, 1
  {
    match ParseString(s)
    case Failed(e) => Failed(e)
    case Parsed(k, afterKey) =>
      match Expect(SkipWs(afterKey), ':')
      case Failed(e) => Failed(e)
      case Parsed(_, afterColon) =>
        match ParseValue(afterColon)
        case Failed(e) => Failed(e)
        case Parsed(v, rest) => Parsed((k, v), rest)
  }

  /** The rest of an object; `acc` holds the entries already inserted. */
  function ParseEntries(s: string, acc: map<string, JsonValue>): (r: Parsed<JsonValue>)
    ensures r.Parsed? ==> |r.rest| < |s|
    decreases |s|, 2
  {
    var t := SkipWs(s);
    if StartsWith(t, '}') then Parsed(Object(acc), t[1..])
    else match ParseEntry(t)
      case Failed(e) => Failed(e)
      case Parsed(entry, rest) =>
        var u := SkipWs(rest);
        if StartsWith(u, '}') then Parsed(Object(acc[entry.0 := entry.1]), u[1..])
        else match Expect(u, ',')
          case Failed(e) => Failed(e)
          case Parsed(_, next) => ParseEntries(next, acc[entry.0 := entry.1])
  }

  /** `JsonValue::parse`: one value, then only whitespace. */
  function Parse(source: string): Result<JsonValue, JsonError> {
    match ParseValue(source)
    case Failed(e) => Err(e)
    case Parsed(v, rest) => if SkipWs(rest) == [] then Ok(v) else Err(TrailingContent)
  }
}
