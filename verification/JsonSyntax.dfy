/** The texts that `JsonValue::parse` accepts, and what each means, given by concrete syntax
    trees: every tree is spelled as a text, and parsing is exactly undoing the spelling. */
module JsonSyntax {
  import opened Text
  import opened Json
  import opened JsonRoundTrip

  // ---------- Trees ----------

  /** A character of a string, written as it is, as a short escape, or as four digits. */
  datatype Part = Raw(c: char) | Escaped(letter: char) | Unicode(digits: string)

  /** A value after whitespace. */
  datatype Tree = Tree(ws: string, node: Node)

  datatype Node =
    | Word(flag: Option<bool>)
    | Digits(negative: bool, digits: string)
    | Quoted(parts: seq<Part>)
    | Brackets(elements: Elements)
    | Braces(members: Members)

  /** The rest of an array: its end, a last element, or an element and a comma, after which
      the array may also end. */
  datatype Elements =
    | NoElement(ws: string)
    | LastElement(value: Tree, ws: string)
    | Element(value: Tree, ws: string, more: Elements)

  datatype Members =
    | NoMember(ws: string)
    | LastMember(entry: Entry, ws: string)
    | Member(entry: Entry, ws: string, more: Members)

  datatype Entry = Entry(ws: string, key: seq<Part>, colon: string, value: Tree)

  // ---------- Spelling, in front of what follows ----------

  function PartText(p: Part): string {
    match p
    case Raw(c) => [c]
    case Escaped(letter) => ['\\', letter]
    case Unicode(digits) => ['\\', 'u'] + digits
  }

  function SpellParts(parts: seq<Part>, rest: string): string {
    if parts == [] then "\"" + rest else PartText(parts[0]) + SpellParts(parts[1..], rest)
  }

  function SpellString(parts: seq<Part>, rest: string): string {
    "\"" + SpellParts(parts, rest)
  }

  function WordText(flag: Option<bool>): string {
    match flag
    case None => "null"
    case Some(true) => "true"
    case Some(false) => "false"
  }

  function Spell(t: Tree, rest: string): string
    decreases t
  {
    t.ws + SpellNode(t.node, rest)
  }

  function SpellNode(n: Node, rest: string): string
    decreases n
  {
    match n
    case Word(flag) => WordText(flag) + rest
    case Digits(negative, digits) => Sign(negative) + (digits + rest)
    case Quoted(parts) => SpellString(parts, rest)
    case Brackets(elements) => "[" + SpellElements(elements, rest)
    case Braces(members) => "{" + SpellMembers(members, rest)
  }

  function SpellElements(es: Elements, rest: string): string
    decreases es
  {
    match es
    case NoElement(ws) => ws + ("]" + rest)
    case LastElement(value, ws) => Spell(value, ws + ("]" + rest))
    case Element(value, ws, more) => Spell(value, ws + ("," + SpellElements(more, rest)))
  }

  function SpellEntry(e: Entry, rest: string): string
    decreases e
  {
    e.ws + SpellString(e.key, e.colon + (":" + Spell(e.value, rest)))
  }

  function SpellMembers(ms: Members, rest: string): string
    decreases ms
  {
    match ms
    case NoMember(ws) => ws + ("}" + rest)
    case LastMember(entry, ws) => SpellEntry(entry, ws + ("}" + rest))
    case Member(entry, ws, more) => SpellEntry(entry, ws + ("," + SpellMembers(more, rest)))
  }

  // ---------- Which trees are allowed ----------

  predicate IsHex(c: char) {
    HexValue(c).Some?
  }

  function HexNumber(digits: string): nat
    requires forall c :: c in digits ==> IsHex(c)
  {
    if digits == "" then 0
    else
      assert digits[|digits| - 1] in digits && IsHex(digits[|digits| - 1]);
      HexNumber(digits[..|digits| - 1]) * 16 + HexValue(digits[|digits| - 1]).value
  }

  /** Any character but the quote and the backslash, control characters included; the eight
      short escapes; four digits of a character that is no surrogate. */
  predicate GoodPart(p: Part) {
    match p
    case Raw(c) => c != '"' && c != '\\'
    case Escaped(letter) => letter != 'u' && Unescape(letter).Some?
    case Unicode(digits) =>
      |digits| == 4 && (forall c :: c in digits ==> IsHex(c))
      && !(0xD800 <= HexNumber(digits) < 0xE000) && HexNumber(digits) <= 0x10FFFF
  }

  predicate GoodParts(parts: seq<Part>) {
    forall p :: p in parts ==> GoodPart(p)
  }

  predicate Good(t: Tree)
    decreases t
  {
    AllWs(t.ws) && GoodNode(t.node)
  }

  /** A number has at least one digit, leading zeros or not, and is in range. */
  predicate GoodNode(n: Node)
    decreases n
  {
    match n
    case Word(_) => true
    case Digits(negative, digits) =>
      digits != "" && (forall c :: c in digits ==> IsDigit(c)) && ToI64(negative, digits).Some?
    case Quoted(parts) => GoodParts(parts)
    case Brackets(elements) => GoodElements(elements)
    case Braces(members) => GoodMembers(members)
  }

  predicate GoodElements(es: Elements)
    decreases es
  {
    match es
    case NoElement(ws) => AllWs(ws)
    case LastElement(value, ws) => Good(value) && AllWs(ws)
    case Element(value, ws, more) => Good(value) && AllWs(ws) && GoodElements(more)
  }

  predicate GoodEntry(e: Entry)
    decreases e
  {
    AllWs(e.ws) && GoodParts(e.key) && AllWs(e.colon) && Good(e.value)
  }

  predicate GoodMembers(ms: Members)
    decreases ms
  {
    match ms
    case NoMember(ws) => AllWs(ws)
    case LastMember(entry, ws) => GoodEntry(entry) && AllWs(ws)
    case Member(entry, ws, more) => GoodEntry(entry) && AllWs(ws) && GoodMembers(more)
  }

  // ---------- What trees mean ----------

  function PartChar(p: Part): char
    requires GoodPart(p)
  {
    match p
    case Raw(c) => c
    case Escaped(letter) => Unescape(letter).value
    case Unicode(digits) => HexNumber(digits) as char
  }

  function Chars(parts: seq<Part>): string
    requires GoodParts(parts)
  {
    if parts == [] then "" else [PartChar(parts[0])] + Chars(parts[1..])
  }

  function Meaning(t: Tree): JsonValue
    requires Good(t)
    decreases t
  {
    NodeMeaning(t.node)
  }

  function NodeMeaning(n: Node): JsonValue
    requires GoodNode(n)
    decreases n
  {
    match n
    case Word(None) => Null
    case Word(Some(flag)) => Bool(flag)
    case Digits(negative, digits) => Number(ToI64(negative, digits).value)
    case Quoted(parts) => Str(Chars(parts))
    case Brackets(elements) => Array(Values(elements))
    case Braces(members) => Object(Entries(members, map[]))
  }

  function Values(es: Elements): seq<JsonValue>
    requires GoodElements(es)
    decreases es
  {
    match es
    case NoElement(_) => []
    case LastElement(value, _) => [Meaning(value)]
    case Element(value, _, more) => [Meaning(value)] + Values(more)
  }

  function With(acc: map<string, JsonValue>, e: Entry): map<string, JsonValue>
    requires GoodEntry(e)
    decreases e
  {
    acc[Chars(e.key) := Meaning(e.value)]
  }

  /** `acc` and the members after it, later ones replacing earlier ones of the same key. */
  function Entries(ms: Members, acc: map<string, JsonValue>): map<string, JsonValue>
    requires GoodMembers(ms)
    decreases ms
  {
    match ms
    case NoMember(_) => acc
    case LastMember(e, _) => With(acc, e)
    case Member(e, _, more) => Entries(more, With(acc, e))
  }

  /** `s` is the spelling of a tree that means `v`, with whitespace after it. */
  ghost predicate Derives(s: string, v: JsonValue) {
    exists t, w :: DerivedBy(s, v, t, w)
  }

  ghost predicate DerivedBy(s: string, v: JsonValue, t: Tree, w: string) {
    Good(t) && AllWs(w) && s == Spell(t, w) && v == Meaning(t)
  }

  // ---------- Whitespace ----------

  lemma {:induction false} WsSplit(s: string) returns (w: string)
    ensures AllWs(w) && s == w + SkipWs(s)
  {
    if s != [] && IsWs(s[0]) {
      w := WsSplit(s[1..]);
      w := [s[0]] + w;
    } else {
      w := "";
    }
  }

  lemma {:induction false} ValueSkips(s: string)
    ensures ParseValue(SkipWs(s)) == ParseValue(s)
  {
    var w := WsSplit(s);
    ValueAfterWs(w, SkipWs(s));
  }

  // ---------- Rules ----------

  lemma {:induction false} ElementsRule(s: string, acc: seq<JsonValue>)
    ensures ParseElements(s, acc) ==
            if StartsWith(SkipWs(s), ']') then Parsed(Array(acc), SkipWs(s)[1..])
            else AfterElement(ParseValue(s), acc)
  {
    ValueSkips(s);
  }

  function AfterElement(p: Parsed<JsonValue>, acc: seq<JsonValue>): Parsed<JsonValue> {
    if p.Failed? then Failed(p.error)
    else
      var u := SkipWs(p.rest);
      if StartsWith(u, ']') then Parsed(Array(acc + [p.value]), u[1..])
      else if StartsWith(u, ',') then ParseElements(u[1..], acc + [p.value])
      else Failed(Expect(u, ',').error)
  }

  lemma {:induction false} MembersRule(s: string, acc: map<string, JsonValue>)
    ensures ParseEntries(s, acc) ==
            if StartsWith(SkipWs(s), '}') then Parsed(Object(acc), SkipWs(s)[1..])
            else AfterMember(ParseEntry(SkipWs(s)), acc)
  {
  }

  function AfterMember(p: Parsed<(string, JsonValue)>, acc: map<string, JsonValue>): Parsed<JsonValue> {
    if p.Failed? then Failed(p.error)
    else
      var u, longer := SkipWs(p.rest), acc[p.value.0 := p.value.1];
      if StartsWith(u, '}') then Parsed(Object(longer), u[1..])
      else if StartsWith(u, ',') then ParseEntries(u[1..], longer)
      else Failed(Expect(u, ',').error)
  }

  // ---------- A spelled tree is parsed ----------

  lemma {:induction false} HexRead(digits: string, rest: string, n: nat, value: nat)
    requires |digits| == n && forall c :: c in digits ==> IsHex(c)
    ensures ParseHex(digits + rest, n, value) == ParseHex(rest, 0, HexAppend(value, digits))
    decreases n
  {
    if n == 0 {
      assert digits + rest == rest;
    } else {
      assert digits[0] in digits && forall c :: c in digits[1..] ==> c in digits;
      assert (digits + rest)[1..] == digits[1..] + rest;
      HexRead(digits[1..], rest, n - 1, value * 16 + HexValue(digits[0]).value);
    }
  }

  /** The number `value` followed by more digits. */
  function HexAppend(value: nat, digits: string): nat
    requires forall c :: c in digits ==> IsHex(c)
    decreases |digits|
  {
    if digits == "" then value
    else
      assert digits[0] in digits && IsHex(digits[0]) && forall c :: c in digits[1..] ==> c in digits;
      HexAppend(value * 16 + HexValue(digits[0]).value, digits[1..])
  }

  lemma {:induction false} HexAppendLast(value: nat, digits: string)
    requires digits != "" && forall c :: c in digits ==> IsHex(c)
    ensures digits[|digits| - 1] in digits && forall c :: c in digits[..|digits| - 1] ==> IsHex(c)
    ensures HexAppend(value, digits) ==
            HexAppend(value, digits[..|digits| - 1]) * 16 + HexValue(digits[|digits| - 1]).value
    decreases |digits|
  {
    assert digits[0] in digits && digits[|digits| - 1] in digits;
    assert forall c :: c in digits[1..] || c in digits[..|digits| - 1] ==> c in digits;
    if |digits| > 1 {
      HexAppendLast(value * 16 + HexValue(digits[0]).value, digits[1..]);
      assert digits[1..][..|digits| - 2] == digits[..|digits| - 1][1..];
    }
  }

  lemma {:induction false} HexNumberIs(digits: string)
    requires forall c :: c in digits ==> IsHex(c)
    ensures HexAppend(0, digits) == HexNumber(digits)
    decreases |digits|
  {
    if digits != "" {
      HexAppendLast(0, digits);
      HexNumberIs(digits[..|digits| - 1]);
    }
  }

  lemma {:induction false} PartRead(p: Part, rest: string, acc: string)
    requires GoodPart(p)
    ensures ParseChars(PartText(p) + rest, acc) == ParseChars(rest, acc + [PartChar(p)])
  {
    var s := PartText(p) + rest;
    match p
    case Raw(c) => assert s[1..] == rest;
    case Escaped(letter) => assert s[1..][1..] == rest && s[1..][0] == letter;
    case Unicode(digits) =>
      assert s[1..][1..] == digits + rest && s[1..][0] == 'u';
      HexRead(digits, rest, 4, 0);
      HexNumberIs(digits);
  }

  lemma {:induction false} PartsRead(parts: seq<Part>, rest: string, acc: string)
    requires GoodParts(parts)
    ensures ParseChars(SpellParts(parts, rest), acc) == Parsed(acc + Chars(parts), rest)
    decreases |parts|
  {
    if parts == [] {
      assert SpellParts(parts, rest)[1..] == rest && acc + "" == acc;
    } else {
      assert parts[0] in parts && forall p :: p in parts[1..] ==> p in parts;
      PartRead(parts[0], SpellParts(parts[1..], rest), acc);
      PartsRead(parts[1..], rest, acc + [PartChar(parts[0])]);
      assert acc + [PartChar(parts[0])] + Chars(parts[1..]) == acc + Chars(parts);
    }
  }

  lemma {:induction false} StringRead(parts: seq<Part>, rest: string)
    requires GoodParts(parts)
    ensures ParseString(SpellString(parts, rest)) == Parsed(Chars(parts), rest)
  {
    var s := SpellString(parts, rest);
    assert s[1..] == SpellParts(parts, rest) && s[0] == '"';
    PartsRead(parts, rest, "");
    assert "" + Chars(parts) == Chars(parts);
  }

  predicate NoDigitFirst(rest: string) {
    rest != [] ==> !IsDigit(rest[0])
  }

  lemma {:induction false} WsNoDigit(ws: string, c: char, rest: string)
    requires AllWs(ws) && !IsDigit(c)
    ensures NoDigitFirst(ws + ([c] + rest))
  {
    if ws != "" {
      assert ws[0] in ws;
    }
  }

  lemma {:induction false} TreeRead(t: Tree, rest: string)
    requires Good(t) && NoDigitFirst(rest)
    ensures ParseValue(Spell(t, rest)) == Parsed(Meaning(t), rest)
    decreases t, 1
  {
    ValueAfterWs(t.ws, SpellNode(t.node, rest));
    match t.node
    case Word(flag) => WordRead(flag, rest);
    case Digits(negative, digits) => NumberRead(negative, digits, rest);
    case Quoted(parts) => QuotedRead(parts, rest);
    case Brackets(elements) =>
      BracketRead(SpellElements(elements, rest));
      ElementsRead(elements, rest, []);
      assert [] + Values(elements) == Values(elements);
    case Braces(members) =>
      BraceRead(SpellMembers(members, rest));
      MembersRead(members, rest, map[]);
  }

  lemma {:induction false} WordRead(flag: Option<bool>, rest: string)
    ensures ParseValue(WordText(flag) + rest) == Parsed(NodeMeaning(Word(flag)), rest)
  {
    var word := WordText(flag);
    ValueDispatch(word + rest);
    LiteralRoundTrip(word, rest, word, NodeMeaning(Word(flag)));
  }

  lemma {:induction false} QuotedRead(parts: seq<Part>, rest: string)
    requires GoodParts(parts)
    ensures ParseValue(SpellString(parts, rest)) == Parsed(Str(Chars(parts)), rest)
  {
    StringRead(parts, rest);
    ValueDispatch(SpellString(parts, rest));
  }

  lemma {:induction false} BracketRead(s: string)
    ensures ParseValue("[" + s) == ParseElements(s, [])
  {
    ValueDispatch("[" + s);
    assert ("[" + s)[1..] == s;
  }

  lemma {:induction false} BraceRead(s: string)
    ensures ParseValue("{" + s) == ParseEntries(s, map[])
  {
    ValueDispatch("{" + s);
    assert ("{" + s)[1..] == s;
  }

  lemma {:induction false} NumberRead(negative: bool, digits: string, rest: string)
    requires digits != "" && (forall c :: c in digits ==> IsDigit(c)) && ToI64(negative, digits).Some?
    requires NoDigitFirst(rest)
    ensures ParseValue(Sign(negative) + (digits + rest)) == Parsed(Number(ToI64(negative, digits).value), rest)
  {
    assert digits[0] in digits && (digits + rest)[0] == digits[0];
    NumberText(negative, digits, rest);
    ValueDispatch(Sign(negative) + (digits + rest));
  }

  /** A comma or an end after whitespace is seen. */
  lemma {:induction false} AfterWs(ws: string, c: char, rest: string)
    requires AllWs(ws) && !IsWs(c)
    ensures SkipWs(ws + ([c] + rest)) == [c] + rest
    ensures ([c] + rest)[1..] == rest
  {
    SkipWsPrefix(ws, [c] + rest);
    SkipWsStops([c] + rest);
  }

  /** A spelled value does not look like the end of an array. */
  lemma {:induction false} SpellHead(t: Tree, rest: string)
    requires Good(t)
    ensures !StartsWith(SkipWs(Spell(t, rest)), ']')
  {
    var s := SpellNode(t.node, rest);
    if t.node.Digits? {
      assert t.node.digits[0] in t.node.digits;
    }
    assert s != [] && !IsWs(s[0]) && s[0] != ']';
    SkipWsPrefix(t.ws, s);
    SkipWsStops(s);
  }

  /** An element was read, and what follows it is the end of the array or a comma. */
  lemma {:induction false} ElementThen(s: string, v: JsonValue, ws: string, c: char, rest: string, acc: seq<JsonValue>)
    requires AllWs(ws) && (c == ']' || c == ',') && !StartsWith(SkipWs(s), ']')
    requires ParseValue(s) == Parsed(v, ws + ([c] + rest))
    ensures ParseElements(s, acc) ==
            if c == ']' then Parsed(Array(acc + [v]), rest) else ParseElements(rest, acc + [v])
  {
    ElementsRule(s, acc);
    AfterWs(ws, c, rest);
  }

  lemma {:induction false} ElementsRead(es: Elements, rest: string, acc: seq<JsonValue>)
    requires GoodElements(es)
    ensures ParseElements(SpellElements(es, rest), acc) == Parsed(Array(acc + Values(es)), rest)
    decreases es, 0
  {
    match es
    case NoElement(ws) =>
      ElementsRule(ws + ("]" + rest), acc);
      AfterWs(ws, ']', rest);
      assert acc + [] == acc;
    case LastElement(value, ws) =>
      ElementRead(value, ws, ']', rest, acc);
    case Element(value, ws, more) =>
      var next := SpellElements(more, rest);
      ElementRead(value, ws, ',', next, acc);
      ElementsRead(more, rest, acc + [Meaning(value)]);
      OneMoreElement(value, ws, more, acc);
  }

  lemma {:induction false} ElementRead(value: Tree, ws: string, c: char, rest: string, acc: seq<JsonValue>)
    requires Good(value) && AllWs(ws) && (c == ']' || c == ',')
    ensures ParseElements(Spell(value, ws + ([c] + rest)), acc) ==
            if c == ']' then Parsed(Array(acc + [Meaning(value)]), rest)
            else ParseElements(rest, acc + [Meaning(value)])
    decreases value, 2
  {
    var after := ws + ([c] + rest);
    SpellHead(value, after);
    WsNoDigit(ws, c, rest);
    TreeRead(value, after);
    ElementThen(Spell(value, after), Meaning(value), ws, c, rest, acc);
  }

  lemma {:induction false} EntryRead(e: Entry, rest: string)
    requires GoodEntry(e) && NoDigitFirst(rest)
    ensures SkipWs(SpellEntry(e, rest)) != [] && SkipWs(SpellEntry(e, rest))[0] == '"'
    ensures ParseEntry(SkipWs(SpellEntry(e, rest))) == Parsed((Chars(e.key), Meaning(e.value)), rest)
    decreases e, 0
  {
    var value := Spell(e.value, rest);
    var after := e.colon + (":" + value);
    var s := SpellString(e.key, after);
    SkipWsPrefix(e.ws, s);
    SkipWsStops(s);
    StringRead(e.key, after);
    AfterWs(e.colon, ':', value);
    TreeRead(e.value, rest);
  }

  lemma {:induction false} MembersRead(ms: Members, rest: string, acc: map<string, JsonValue>)
    requires GoodMembers(ms)
    ensures ParseEntries(SpellMembers(ms, rest), acc) == Parsed(Object(Entries(ms, acc)), rest)
    decreases ms, 0
  {
    MembersRule(SpellMembers(ms, rest), acc);
    match ms
    case NoMember(ws) => AfterWs(ws, '}', rest);
    case LastMember(entry, ws) =>
      WsNoDigit(ws, '}', rest);
      EntryRead(entry, ws + ("}" + rest));
      AfterWs(ws, '}', rest);
    case Member(entry, ws, more) =>
      var next := SpellMembers(more, rest);
      WsNoDigit(ws, ',', next);
      EntryRead(entry, ws + ("," + next));
      AfterWs(ws, ',', next);
      MembersRead(more, rest, With(acc, entry));
  }

  // ---------- A parsed text is spelled ----------

  lemma {:induction false} HexFound(s: string, n: nat, value: nat) returns (digits: string)
    requires ParseHex(s, n, value).Parsed?
    ensures |digits| == n && (forall c :: c in digits ==> IsHex(c))
    ensures s == digits + ParseHex(s, n, value).rest
    ensures ParseHex(s, n, value) == ParseHex(ParseHex(s, n, value).rest, 0, HexAppend(value, digits))
    decreases n
  {
    if n == 0 {
      digits := "";
    } else {
      var d := HexValue(s[0]).value;
      var more := HexFound(s[1..], n - 1, value * 16 + d);
      digits := [s[0]] + more;
      assert digits[1..] == more;
    }
  }

  lemma {:induction false} PartFound(s: string, acc: string) returns (p: Part, rest: string)
    requires s != [] && s[0] != '"' && ParseChars(s, acc).Parsed?
    ensures GoodPart(p) && s == PartText(p) + rest
    ensures ParseChars(s, acc) == ParseChars(rest, acc + [PartChar(p)])
  {
    if s[0] != '\\' {
      p, rest := Raw(s[0]), s[1..];
    } else if s[1] == 'u' {
      var digits := HexFound(s[2..], 4, 0);
      HexNumberIs(digits);
      p, rest := Unicode(digits), ParseHex(s[2..], 4, 0).rest;
      assert s[1..][1..] == s[2..];
    } else {
      p, rest := Escaped(s[1]), s[2..];
      assert s[1..][1..] == s[2..];
    }
  }

  lemma {:induction false} PartsFound(s: string, acc: string) returns (parts: seq<Part>)
    requires ParseChars(s, acc).Parsed?
    ensures GoodParts(parts) && s == SpellParts(parts, ParseChars(s, acc).rest)
    ensures ParseChars(s, acc).value == acc + Chars(parts)
    decreases |s|
  {
    if s[0] == '"' {
      parts := [];
    } else {
      var p, rest := PartFound(s, acc);
      var more := PartsFound(rest, acc + [PartChar(p)]);
      parts := [p] + more;
      OnePart(p, more, ParseChars(s, acc).rest, acc);
    }
  }

  lemma {:induction false} OnePart(p: Part, more: seq<Part>, rest: string, acc: string)
    requires GoodPart(p) && GoodParts(more)
    ensures GoodParts([p] + more) && SpellParts([p] + more, rest) == PartText(p) + SpellParts(more, rest)
    ensures acc + [PartChar(p)] + Chars(more) == acc + Chars([p] + more)
  {
    assert ([p] + more)[1..] == more;
  }

  lemma {:induction false} StringFound(s: string) returns (parts: seq<Part>)
    requires ParseString(s).Parsed?
    ensures GoodParts(parts) && s == SpellString(parts, ParseString(s).rest) && ParseString(s).value == Chars(parts)
  {
    parts := PartsFound(s[1..], "");
    assert "" + Chars(parts) == Chars(parts);
  }

  lemma {:induction false} WordFound(s: string, word: string, literal: string, v: JsonValue)
    requires ParseLiteral(s, word, literal, v).Parsed?
    ensures ParseLiteral(s, word, literal, v).value == v && s == word + ParseLiteral(s, word, literal, v).rest
    decreases |word|
  {
    if word != [] {
      WordFound(s[1..], word[1..], literal, v);
      assert word == [word[0]] + word[1..];
    }
  }

  /** The sign and the digits by which a number was read. */
  lemma {:induction false} NumberRule(s: string) returns (negative: bool, ds: string, rest: string)
    requires ParseNumber(s).Parsed?
    ensures ds != "" && (forall c :: c in ds ==> IsDigit(c)) && ToI64(negative, ds).Some?
    ensures ParseNumber(s) == Parsed(ToI64(negative, ds).value, rest)
    ensures s == Sign(negative) + (ds + rest)
  {
    negative := StartsWith(s, '-');
    var t := if negative then s[1..] else s;
    ds, rest := t[..DigitsLen(t)], t[DigitsLen(t)..];
    assert t == ds + rest;
  }

  /** The rule by which a value was read. */
  lemma {:induction false} ValueRule(t: string)
    requires t != [] && !IsWs(t[0]) && ParseValue(t).Parsed?
    ensures t[0] in "ntf\"[{-" || IsDigit(t[0])
    ensures t[0] == '"' ==> ParseString(t).Parsed? &&
                            ParseValue(t) == Parsed(Str(ParseString(t).value), ParseString(t).rest)
    ensures t[0] == '-' || IsDigit(t[0]) ==>
              ParseNumber(t).Parsed? && ParseValue(t) == Parsed(Number(ParseNumber(t).value), ParseNumber(t).rest)
  {
    SkipWsStops(t);
  }

  lemma {:induction false} TreeFound(s: string) returns (t: Tree)
    requires ParseValue(s).Parsed?
    ensures Good(t) && s == Spell(t, ParseValue(s).rest) && ParseValue(s).value == Meaning(t)
    decreases |s|, 0
  {
    var w := WsSplit(s);
    var u := SkipWs(s);
    ValueSkips(s);
    assert u != [] && !IsWs(u[0]);
    ValueRule(u);
    ValueDispatch(u);
    var n := NodeFound(u);
    t := Tree(w, n);
  }

  lemma {:induction false} NodeFound(u: string) returns (n: Node)
    requires u != [] && !IsWs(u[0]) && ParseValue(u).Parsed?
    ensures GoodNode(n) && u == SpellNode(n, ParseValue(u).rest) && ParseValue(u).value == NodeMeaning(n)
    decreases |u|, 0, 1
  {
    if u[0] != '[' && u[0] != '{' {
      n := LeafFound(u);
      return;
    }
    ValueDispatch(u);
    if u[0] == '[' {
      var es := ElementsFound(u[1..], []);
      assert [] + Values(es) == Values(es);
      n := Brackets(es);
    } else {
      var ms := MembersFound(u[1..], map[]);
      n := Braces(ms);
    }
  }

  lemma {:induction false} LeafFound(u: string) returns (n: Node)
    requires u != [] && !IsWs(u[0]) && u[0] != '[' && u[0] != '{' && ParseValue(u).Parsed?
    ensures GoodNode(n) && u == SpellNode(n, ParseValue(u).rest) && ParseValue(u).value == NodeMeaning(n)
  {
    ValueRule(u);
    ValueDispatch(u);
    if u[0] == 'n' {
      WordFound(u, "null", "null", Null);
      n := Word(None);
    } else if u[0] == 't' {
      WordFound(u, "true", "true", Bool(true));
      n := Word(Some(true));
    } else if u[0] == 'f' {
      WordFound(u, "false", "false", Bool(false));
      n := Word(Some(false));
    } else if u[0] == '"' {
      var parts := StringFound(u);
      n := Quoted(parts);
    } else {
      var negative, ds, rest := NumberRule(u);
      n := Digits(negative, ds);
    }
  }

  /** What follows an element that was read. */
  lemma {:induction false} ElementRule(s: string, acc: seq<JsonValue>) returns (v: JsonValue, u: string)
    requires ParseElements(s, acc).Parsed? && !StartsWith(SkipWs(s), ']')
    ensures ParseValue(s).Parsed? && ParseValue(s).value == v
    ensures u == SkipWs(ParseValue(s).rest) && u != [] && u == [u[0]] + u[1..]
    ensures u[0] == ']' || u[0] == ','
    ensures u[0] == ']' ==> ParseElements(s, acc) == Parsed(Array(acc + [v]), u[1..])
    ensures u[0] == ',' ==> ParseElements(s, acc) == ParseElements(u[1..], acc + [v])
  {
    ElementsRule(s, acc);
    v, u := ParseValue(s).value, SkipWs(ParseValue(s).rest);
  }

  lemma {:induction false} ElementsFound(s: string, acc: seq<JsonValue>) returns (es: Elements)
    requires ParseElements(s, acc).Parsed?
    ensures GoodElements(es) && s == SpellElements(es, ParseElements(s, acc).rest)
    ensures ParseElements(s, acc).value == Array(acc + Values(es))
    decreases |s|, 1
  {
    if StartsWith(SkipWs(s), ']') {
      ElementsRule(s, acc);
      var w := WsSplit(s);
      es := NoElement(w);
      assert SkipWs(s) == "]" + SkipWs(s)[1..] && acc + [] == acc;
    } else {
      var v, u := ElementRule(s, acc);
      var t := TreeFound(s);
      var x := WsSplit(ParseValue(s).rest);
      if u[0] == ']' {
        es := LastElement(t, x);
      } else {
        var more := ElementsFound(u[1..], acc + [v]);
        es := Element(t, x, more);
        OneMoreElement(t, x, more, acc);
      }
    }
  }

  lemma {:induction false} OneMoreElement(t: Tree, ws: string, more: Elements, acc: seq<JsonValue>)
    requires Good(t) && AllWs(ws) && GoodElements(more)
    ensures acc + [Meaning(t)] + Values(more) == acc + Values(Element(t, ws, more))
  {
  }

  lemma {:induction false} EntryFound(s: string) returns (e: Entry)
    requires ParseEntry(SkipWs(s)).Parsed?
    ensures GoodEntry(e) && s == SpellEntry(e, ParseEntry(SkipWs(s)).rest)
    ensures ParseEntry(SkipWs(s)).value == (Chars(e.key), Meaning(e.value))
    decreases |s|, 1
  {
    var w := WsSplit(s);
    var t := SkipWs(s);
    EntryRule(t);
    var key := StringFound(t);
    var afterKey := ParseString(t).rest;
    var x := WsSplit(afterKey);
    var u := SkipWs(afterKey);
    var value := TreeFound(u[1..]);
    e := Entry(w, key, x, value);
    EntrySpelled(s, e, t, afterKey, u, ParseEntry(t).rest);
  }

  lemma {:induction false} EntrySpelled(s: string, e: Entry, t: string, afterKey: string, u: string, rest: string)
    requires s == e.ws + t && t == SpellString(e.key, afterKey) && afterKey == e.colon + u
    requires StartsWith(u, ':') && u[1..] == Spell(e.value, rest)
    ensures s == SpellEntry(e, rest)
  {
    assert u == ":" + u[1..];
  }

  /** The three parts by which an entry was read. */
  lemma {:induction false} EntryRule(t: string)
    requires ParseEntry(t).Parsed?
    ensures ParseString(t).Parsed? && StartsWith(SkipWs(ParseString(t).rest), ':')
    ensures ParseValue(SkipWs(ParseString(t).rest)[1..]).Parsed?
    ensures ParseEntry(t).value.0 == ParseString(t).value
    ensures ParseEntry(t).value.1 == ParseValue(SkipWs(ParseString(t).rest)[1..]).value
    ensures ParseEntry(t).rest == ParseValue(SkipWs(ParseString(t).rest)[1..]).rest
  {
  }

  /** What follows a member that was read. */
  lemma {:induction false} MemberRule(s: string, acc: map<string, JsonValue>)
    returns (k: string, v: JsonValue, u: string)
    requires ParseEntries(s, acc).Parsed? && !StartsWith(SkipWs(s), '}')
    ensures ParseEntry(SkipWs(s)).Parsed? && ParseEntry(SkipWs(s)).value == (k, v)
    ensures u == SkipWs(ParseEntry(SkipWs(s)).rest) && u != [] && u == [u[0]] + u[1..]
    ensures u[0] == '}' || u[0] == ','
    ensures u[0] == '}' ==> ParseEntries(s, acc) == Parsed(Object(acc[k := v]), u[1..])
    ensures u[0] == ',' ==> ParseEntries(s, acc) == ParseEntries(u[1..], acc[k := v])
  {
    MembersRule(s, acc);
    k, v := ParseEntry(SkipWs(s)).value.0, ParseEntry(SkipWs(s)).value.1;
    u := SkipWs(ParseEntry(SkipWs(s)).rest);
  }

  lemma {:induction false} MembersFound(s: string, acc: map<string, JsonValue>) returns (ms: Members)
    requires ParseEntries(s, acc).Parsed?
    ensures GoodMembers(ms) && s == SpellMembers(ms, ParseEntries(s, acc).rest)
    ensures ParseEntries(s, acc).value == Object(Entries(ms, acc))
    decreases |s|, 2
  {
    if StartsWith(SkipWs(s), '}') {
      MembersRule(s, acc);
      var w := WsSplit(s);
      ms := NoMember(w);
      assert SkipWs(s) == "}" + SkipWs(s)[1..];
    } else {
      var k, v, u := MemberRule(s, acc);
      var e := EntryFound(s);
      var x := WsSplit(ParseEntry(SkipWs(s)).rest);
      if u[0] == '}' {
        ms := LastMember(e, x);
        MemberLast(s, e, x, u[1..], acc);
      } else {
        var more := MembersFound(u[1..], acc[k := v]);
        ms := Member(e, x, more);
        MemberMore(s, e, x, more, ParseEntries(u[1..], acc[k := v]).rest, acc);
      }
    }
  }

  lemma {:induction false} MemberLast(s: string, e: Entry, ws: string, rest: string, acc: map<string, JsonValue>)
    requires GoodEntry(e) && AllWs(ws) && s == SpellEntry(e, ws + ("}" + rest))
    ensures GoodMembers(LastMember(e, ws)) && s == SpellMembers(LastMember(e, ws), rest)
    ensures Entries(LastMember(e, ws), acc) == With(acc, e)
  {
  }

  lemma {:induction false} MemberMore(s: string, e: Entry, ws: string, more: Members, rest: string,
                                      acc: map<string, JsonValue>)
    requires GoodEntry(e) && AllWs(ws) && GoodMembers(more)
    requires s == SpellEntry(e, ws + ("," + SpellMembers(more, rest)))
    ensures GoodMembers(Member(e, ws, more)) && s == SpellMembers(Member(e, ws, more), rest)
    ensures Entries(Member(e, ws, more), acc) == Entries(more, With(acc, e))
  {
  }

  // ---------- The accepted language ----------

  /** The parser accepts exactly the spelled trees, and gives what they mean. */
  lemma {:induction false} ParsesExactly(s: string, v: JsonValue)
    ensures Parse(s) == Ok(v) <==> Derives(s, v)
  {
    if Parse(s) == Ok(v) {
      var t := TreeFound(s);
      var w := ParseValue(s).rest;
      SkipWsEmptyIffAllWs(w);
      assert DerivedBy(s, v, t, w);
    }
    if Derives(s, v) {
      var t, w :| DerivedBy(s, v, t, w);
      if w != [] {
        assert w[0] in w;
      }
      TreeRead(t, w);
      SkipWsEmptyIffAllWs(w);
    }
  }

  /** No text has two meanings. */
  lemma {:induction false} Unambiguous(s: string, v: JsonValue, u: JsonValue)
    requires Derives(s, v) && Derives(s, u)
    ensures v == u
  {
    ParsesExactly(s, v);
    ParsesExactly(s, u);
  }

  // ---------- Beyond RFC 8259 ----------

  /** An array may end after a comma. */
  lemma {:induction false} TrailingComma(v: JsonValue)
    ensures Parse("[" + (Render(v) + ",]")) == Ok(Array([v]))
  {
    var s := "[" + (Render(v) + ",]");
    var t := Render(v) + ",]";
    assert s[1..] == t;
    RenderHead(v);
    assert t[0] == Render(v)[0];
    ValueRoundTrip(v, ",]");
    ElementsStep(t, v, ",]", []);
    assert ",]"[1..] == "]" + "" && [] + [v] == [v];
    EmptyElements("", [v]);
    ValueDispatch(s);
  }

  /** Leading zeros are allowed, and do not count. */
  lemma {:induction false} LeadingZero(n: I64)
    requires n >= 0
    ensures Parse("0" + RenderNumber(n)) == Ok(Number(n))
  {
    NatRoundTrip(n);
    var ds := "0" + RenderNat(n);
    assert forall c :: c in ds ==> c == '0' || c in RenderNat(n);
    ZeroInFront(RenderNat(n));
    assert Sign(false) + (ds + "") == ds && Sign(false) + RenderNat(n) == RenderNat(n);
    NumberRead(false, ds, "");
  }

  lemma {:induction false} ZeroInFront(ds: string)
    requires forall c :: c in ds ==> IsDigit(c)
    ensures (forall c :: c in "0" + ds ==> IsDigit(c)) && DecimalValue("0" + ds) == DecimalValue(ds)
    decreases |ds|
  {
    var all := "0" + ds;
    forall c | c in all ensures IsDigit(c) {
      assert c == '0' || c in ds;
    }
    if ds == "" {
      assert all[..0] == "";
    } else {
      var n := |ds| - 1;
      assert forall c :: c in ds[..n] ==> c in ds;
      assert all[..n + 1] == "0" + ds[..n] && all[n + 1] == ds[n];
      ZeroInFront(ds[..n]);
    }
  }
}
