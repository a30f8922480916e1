/** Which text a JSON value prints as: of all the texts that mean the value, the one that
    spells it without whitespace, leading zeros and needless escapes, its keys in order. */
module JsonCanonical {
  import opened Text
  import opened Ordering
  import opened Json
  import opened JsonSyntax
  import opened JsonRoundTrip

  // ---------- Canonical trees ----------

  predicate IsLowerHex(c: char) {
    '0' <= c <= '9' || 'a' <= c <= 'f'
  }

  /** Characters stand for themselves, but the quote, the backslash and the controls (C0, DEL
      and C1) do not; seven of these have a short escape, the others four small digits. */
  predicate CanonicalPart(p: Part) {
    match p
    case Raw(c) => c != '"' && c != '\\' && (' ' <= c <= '~' || c > '\U{9F}')
    case Escaped(letter) => letter in {'"', '\\', 'n', 'r', 't', 'b', 'f'}
    case Unicode(digits) =>
      && |digits| == 4 && (forall c :: c in digits ==> IsLowerHex(c) && IsHex(c))
      && var n := HexNumber(digits);
         (n < 32 || 127 <= n < 160) && n !in {8, 9, 10, 12, 13}
  }

  predicate CanonicalParts(parts: seq<Part>) {
    forall p :: p in parts ==> CanonicalPart(p)
  }

  /** No zero in front of other digits, no minus sign in front of zero. */
  predicate CanonicalDigits(negative: bool, digits: string) {
    if digits == "0" then !negative else digits != "" && digits[0] != '0'
  }

  predicate Canonical(t: Tree)
    decreases t
  {
    t.ws == "" && CanonicalNode(t.node)
  }

  predicate CanonicalNode(n: Node)
    decreases n
  {
    match n
    case Word(_) => true
    case Digits(negative, digits) => CanonicalDigits(negative, digits)
    case Quoted(parts) => CanonicalParts(parts)
    case Brackets(elements) => elements == NoElement("") || CanonicalElements(elements)
    case Braces(members) =>
      members == NoMember("") || (CanonicalMembers(members) && GoodMembers(members) && Increasing(Keys(members)))
  }

  /** At least one element, and no comma after the last. */
  predicate CanonicalElements(es: Elements)
    decreases es
  {
    match es
    case NoElement(_) => false
    case LastElement(value, ws) => Canonical(value) && ws == ""
    case Element(value, ws, more) => Canonical(value) && ws == "" && CanonicalElements(more)
  }

  predicate CanonicalEntry(e: Entry)
    decreases e
  {
    e.ws == "" && CanonicalParts(e.key) && e.colon == "" && Canonical(e.value)
  }

  predicate CanonicalMembers(ms: Members)
    decreases ms
  {
    match ms
    case NoMember(_) => false
    case LastMember(entry, ws) => CanonicalEntry(entry) && ws == ""
    case Member(entry, ws, more) => CanonicalEntry(entry) && ws == "" && CanonicalMembers(more)
  }

  function KeyOf(e: Entry): string
    requires GoodEntry(e)
  {
    Chars(e.key)
  }

  /** The keys of the members, in the order they are written in. */
  function Keys(ms: Members): seq<string>
    requires GoodMembers(ms)
    decreases ms
  {
    match ms
    case NoMember(_) => []
    case LastMember(e, _) => [KeyOf(e)]
    case Member(e, _, more) => [KeyOf(e)] + Keys(more)
  }

  // ---------- Strings ----------

  lemma {:induction false} LowerHexDigit(c: char)
    requires IsLowerHex(c)
    ensures HexValue(c).Some? && HexDigit(HexValue(c).value) == c
  {
  }

  lemma {:induction false} FourDigits(digits: string)
    requires |digits| == 4 && forall c :: c in digits ==> IsLowerHex(c) && IsHex(c)
    ensures HexNumber(digits) < 0x10000 && Hex4(HexNumber(digits)) == digits
  {
    var a, b, c, d := digits[0], digits[1], digits[2], digits[3];
    LowerHexDigit(a);
    LowerHexDigit(b);
    LowerHexDigit(c);
    LowerHexDigit(d);
    assert digits[..3][..2] == digits[..2] && digits[..2][..1] == digits[..1] && digits[..1][..0] == "";
    assert HexNumber(digits[..1]) == HexValue(a).value;
    assert HexNumber(digits[..2]) == HexValue(a).value * 16 + HexValue(b).value;
    assert HexNumber(digits[..3]) == HexNumber(digits[..2]) * 16 + HexValue(c).value;
    Nibbles(HexValue(a).value, HexValue(b).value, HexValue(c).value, HexValue(d).value);
    assert Hex4(HexNumber(digits)) == [a, b, c, d];
  }

  lemma {:induction false} Nibbles(a: int, b: int, c: int, d: int)
    requires 0 <= a < 16 && 0 <= b < 16 && 0 <= c < 16 && 0 <= d < 16
    ensures var n := ((a * 16 + b) * 16 + c) * 16 + d;
            0 <= n < 0x10000 && n / 4096 == a && n / 256 % 16 == b && n / 16 % 16 == c && n % 16 == d
  {
    var n := ((a * 16 + b) * 16 + c) * 16 + d;
    assert n / 16 == (a * 16 + b) * 16 + c && n / 256 == a * 16 + b && n / 4096 == a;
  }

  /** A canonical part is good, and is what its character is printed as. */
  lemma {:induction false} PartIsEscape(p: Part)
    requires CanonicalPart(p)
    ensures GoodPart(p) && PartText(p) == EscapeChar(PartChar(p))
  {
    if p.Unicode? {
      FourDigits(p.digits);
    }
  }

  lemma {:induction false} PartsAreEscapes(parts: seq<Part>, rest: string)
    requires CanonicalParts(parts)
    ensures GoodParts(parts) && SpellParts(parts, rest) == EscapeAll(Chars(parts)) + ("\"" + rest)
    decreases |parts|
  {
    if parts != [] {
      PartIsEscape(parts[0]);
      PartsAreEscapes(parts[1..], rest);
      assert parts == [parts[0]] + parts[1..];
      CharsStep(parts);
      Assoc(EscapeChar(PartChar(parts[0])), EscapeAll(Chars(parts[1..])), "\"" + rest);
    }
  }

  lemma {:induction false} CharsStep(parts: seq<Part>)
    requires parts != [] && GoodParts(parts)
    ensures Chars(parts) == [PartChar(parts[0])] + Chars(parts[1..])
    ensures EscapeAll(Chars(parts)) == EscapeChar(PartChar(parts[0])) + EscapeAll(Chars(parts[1..]))
  {
    assert Chars(parts)[1..] == Chars(parts[1..]);
  }

  lemma {:induction false} StringIsRendered(parts: seq<Part>, rest: string)
    requires CanonicalParts(parts)
    ensures GoodParts(parts) && SpellString(parts, rest) == RenderString(Chars(parts)) + rest
  {
    PartsAreEscapes(parts, rest);
    var escaped := EscapeAll(Chars(parts));
    Assoc("\"", escaped, "\"" + rest);
    assert "\"" + escaped + "\"" + rest == "\"" + (escaped + ("\"" + rest));
  }

  // ---------- Numbers ----------

  lemma {:induction false} DigitsAreRendered(digits: string)
    requires digits != "" && (digits == "0" || digits[0] != '0') && forall c :: c in digits ==> IsDigit(c)
    ensures RenderNat(DecimalValue(digits)) == digits
    ensures DecimalValue(digits) == 0 <==> digits == "0"
    decreases |digits|
  {
    var front, last := digits[..|digits| - 1], digits[|digits| - 1];
    assert last in digits && digits == front + [last];
    if front != "" {
      assert front[0] == digits[0] && digits[0] in digits && digits != "0";
      DigitsAreRendered(front);
      assert DecimalValue(digits) == 10 * DecimalValue(front) + DigitValue(last);
      assert DecimalValue(digits) / 10 == DecimalValue(front) && DecimalValue(digits) % 10 == DigitValue(last);
    } else {
      assert digits[..0] == "" && DecimalValue(digits) == DigitValue(last) && digits == [last];
    }
  }

  lemma {:induction false} NumberIsRendered(negative: bool, digits: string)
    requires CanonicalDigits(negative, digits) && GoodNode(Digits(negative, digits))
    ensures RenderNumber(ToI64(negative, digits).value) == Sign(negative) + digits
  {
    DigitsAreRendered(digits);
  }

  // ---------- Objects ----------

  /** Two increasing lists of the same keys are the same list. */
  lemma {:induction false} IncreasingUnique(a: seq<string>, b: seq<string>)
    requires Increasing(a) && Increasing(b) && forall k :: k in a <==> k in b
    ensures a == b
    decreases |a|
  {
    HeadIn(a);
    HeadIn(b);
    if a != [] && b != [] {
      SameLeast(a, b);
      forall k ensures k in a[1..] <==> k in b[1..] {
        TailOf(a, k);
        TailOf(b, k);
      }
      IncreasingUnique(a[1..], b[1..]);
      assert a == [a[0]] + a[1..] && b == [b[0]] + b[1..];
    }
  }

  lemma {:induction false} HeadIn(a: seq<string>)
    ensures a != [] ==> a[0] in a
  {
  }

  lemma {:induction false} SameLeast(a: seq<string>, b: seq<string>)
    requires Increasing(a) && Increasing(b) && a != [] && b != [] && a[0] in b && b[0] in a
    ensures a[0] == b[0]
  {
    if a[0] != b[0] {
      var i :| 0 <= i < |a| && a[i] == b[0];
      var j :| 0 <= j < |b| && b[j] == a[0];
      if i > 0 && j > 0 {
        LessEqAntisymmetric(a[0], b[0]);
      }
    }
  }

  lemma {:induction false} TailOf(a: seq<string>, k: string)
    requires Increasing(a) && a != []
    ensures k in a[1..] <==> k in a && k != a[0]
  {
    if k in a[1..] {
      var i :| 0 <= i < |a[1..]| && a[1..][i] == k;
      assert a[i + 1] == k && Less(a[0], a[i + 1]);
    }
  }

  predicate HoldsEntry(e: Entry, m: map<string, JsonValue>)
    requires GoodEntry(e)
  {
    KeyOf(e) in m && m[KeyOf(e)] == Meaning(e.value)
  }

  /** Every member is an entry of `m`. */
  predicate Holds(ms: Members, m: map<string, JsonValue>)
    requires GoodMembers(ms)
    decreases ms
  {
    match ms
    case NoMember(_) => true
    case LastMember(e, _) => HoldsEntry(e, m)
    case Member(e, _, more) => HoldsEntry(e, m) && Holds(more, m)
  }

  lemma {:induction false} OthersKept(ms: Members, acc: map<string, JsonValue>, k: string)
    requires GoodMembers(ms) && k !in Keys(ms)
    ensures k in Entries(ms, acc) <==> k in acc
    ensures k in acc ==> Entries(ms, acc)[k] == acc[k]
    decreases ms
  {
    if ms.Member? {
      OthersKept(ms.more, With(acc, ms.entry), k);
    }
  }

  /** Members with increasing keys all become entries. */
  lemma {:induction false} AllHeld(ms: Members, acc: map<string, JsonValue>)
    requires GoodMembers(ms) && Increasing(Keys(ms))
    ensures Holds(ms, Entries(ms, acc))
    ensures forall k :: k in Entries(ms, acc) <==> k in acc || k in Keys(ms)
    decreases ms
  {
    if ms.Member? {
      var key := KeyOf(ms.entry);
      TailOf(Keys(ms), key);
      assert Keys(ms)[1..] == Keys(ms.more);
      AllHeld(ms.more, With(acc, ms.entry));
      OthersKept(ms.more, With(acc, ms.entry), key);
    }
  }

  lemma {:induction false} ObjectKeys(ms: Members)
    requires GoodMembers(ms) && Increasing(Keys(ms))
    ensures Holds(ms, Entries(ms, map[])) && SortedKeys(Entries(ms, map[]).Keys) == Keys(ms)
  {
    AllHeld(ms, map[]);
    IncreasingUnique(SortedKeys(Entries(ms, map[]).Keys), Keys(ms));
  }

  lemma {:induction false} KeysHeld(ms: Members, m: map<string, JsonValue>)
    requires GoodMembers(ms) && Holds(ms, m)
    ensures forall k :: k in Keys(ms) ==> k in m
    decreases ms
  {
    if ms.Member? {
      KeysHeld(ms.more, m);
    }
  }

  // ---------- Canonical trees are printed ----------

  /** A canonical tree is spelled as its meaning is printed. */
  lemma {:induction false} CanonicalIsRendered(t: Tree, rest: string)
    requires Good(t) && Canonical(t)
    ensures Spell(t, rest) == Render(Meaning(t)) + rest
    decreases t, 1
  {
    assert "" + SpellNode(t.node, rest) == SpellNode(t.node, rest);
    match t.node
    case Word(_) =>
    case Digits(negative, digits) =>
      NumberIsRendered(negative, digits);
      Assoc(Sign(negative), digits, rest);
    case Quoted(parts) => StringIsRendered(parts, rest);
    case Brackets(elements) =>
      ElementsAreRendered(elements, rest);
      Bracketed("[", RenderElements(Values(elements)), "]", rest);
    case Braces(members) => BracesAreRendered(members, rest);
  }

  lemma {:induction false} Bracketed(open: string, inner: string, close: string, rest: string)
    ensures open + inner + close + rest == open + (inner + (close + rest))
  {
  }

  lemma {:induction false} ElementsAreRendered(es: Elements, rest: string)
    requires GoodElements(es) && (es == NoElement("") || CanonicalElements(es))
    ensures SpellElements(es, rest) == RenderElements(Values(es)) + ("]" + rest)
    decreases es, 0
  {
    match es
    case NoElement(_) =>
    case LastElement(value, _) =>
      CanonicalIsRendered(value, "" + ("]" + rest));
      assert [Meaning(value)] == Values(es);
    case Element(value, _, more) =>
      var tail := SpellElements(more, rest);
      CanonicalIsRendered(value, "" + ("," + tail));
      ElementsAreRendered(more, rest);
      FirstElementText(es, rest);
  }

  lemma {:induction false} FirstElementText(es: Elements, rest: string)
    requires es.Element? && GoodElements(es) && CanonicalElements(es)
    requires var after := "" + ("," + SpellElements(es.more, rest));
             Spell(es.value, after) == Render(Meaning(es.value)) + after
    requires SpellElements(es.more, rest) == RenderElements(Values(es.more)) + ("]" + rest)
    ensures SpellElements(es, rest) == RenderElements(Values(es)) + ("]" + rest)
  {
    ValuesStep(es);
    CommaBetween(Render(Meaning(es.value)), RenderElements(Values(es.more)), "]" + rest);
  }

  lemma {:induction false} CommaBetween(first: string, others: string, rest: string)
    ensures first + ("" + ("," + (others + rest))) == (first + "," + others) + rest
  {
  }

  lemma {:induction false} ValuesStep(es: Elements)
    requires es.Element? && GoodElements(es) && CanonicalElements(es)
    ensures RenderElements(Values(es)) == Render(Meaning(es.value)) + "," + RenderElements(Values(es.more))
  {
    assert Values(es.more) != [];
    assert Values(es)[0] == Meaning(es.value) && Values(es)[1..] == Values(es.more);
  }

  lemma {:induction false} BracesAreRendered(ms: Members, rest: string)
    requires GoodMembers(ms) && CanonicalNode(Braces(ms))
    ensures SpellNode(Braces(ms), rest) == Render(NodeMeaning(Braces(ms))) + rest
    decreases ms, 1
  {
    var v := NodeMeaning(Braces(ms));
    ObjectKeys(ms);
    KeysHeld(ms, v.entries);
    if ms == NoMember("") {
      NoEntries(v, rest);
    } else {
      MembersAreRendered(ms, v, rest);
    }
    BracesText(v, ms, Keys(ms), rest);
  }

  lemma {:induction false} NoEntries(v: JsonValue, rest: string)
    requires v.Object?
    ensures RenderEntries(v, []) == "" && SpellMembers(NoMember(""), rest) == "" + ("}" + rest)
  {
  }

  lemma {:induction false} BracesText(v: JsonValue, ms: Members, ks: seq<string>, rest: string)
    requires v.Object? && ks == SortedKeys(v.entries.Keys)
    requires SpellMembers(ms, rest) == RenderEntries(v, ks) + ("}" + rest)
    ensures SpellNode(Braces(ms), rest) == Render(v) + rest
  {
    Bracketed("{", RenderEntries(v, ks), "}", rest);
  }

  lemma {:induction false} EntryIsRendered(e: Entry, rest: string)
    requires GoodEntry(e) && CanonicalEntry(e)
    ensures SpellEntry(e, rest) == RenderString(Chars(e.key)) + (":" + (Render(Meaning(e.value)) + rest))
    decreases e
  {
    CanonicalIsRendered(e.value, rest);
    StringIsRendered(e.key, "" + (":" + Spell(e.value, rest)));
  }

  lemma {:induction false} MembersAreRendered(ms: Members, v: JsonValue, rest: string)
    requires GoodMembers(ms) && CanonicalMembers(ms) && v.Object? && Holds(ms, v.entries)
    requires forall k :: k in Keys(ms) ==> k in v.entries
    ensures SpellMembers(ms, rest) == RenderEntries(v, Keys(ms)) + ("}" + rest)
    decreases ms, 0
  {
    match ms
    case LastMember(e, _) =>
      LastText(ms, rest);
      EntryIsRendered(e, "}" + rest);
      assert Keys(ms) == [KeyOf(e)];
      EntriesText(v, [KeyOf(e)], rest);
    case Member(e, _, more) =>
      MemberText(ms, rest);
      KeysStep(ms);
      MembersAreRendered(more, v, rest);
      EntryIsRendered(e, "," + SpellMembers(more, rest));
      EntriesStart(v, Keys(ms), rest);
  }

  lemma {:induction false} LastText(ms: Members, rest: string)
    requires ms.LastMember? && ms.ws == ""
    ensures SpellMembers(ms, rest) == SpellEntry(ms.entry, "}" + rest)
  {
    assert "" + ("}" + rest) == "}" + rest;
  }

  lemma {:induction false} MemberText(ms: Members, rest: string)
    requires ms.Member? && ms.ws == ""
    ensures SpellMembers(ms, rest) == SpellEntry(ms.entry, "," + SpellMembers(ms.more, rest))
  {
    var tail := "," + SpellMembers(ms.more, rest);
    assert "" + tail == tail;
  }

  lemma {:induction false} KeysStep(ms: Members)
    requires ms.Member? && GoodMembers(ms) && CanonicalMembers(ms)
    ensures |Keys(ms)| > 1 && Keys(ms)[0] == KeyOf(ms.entry) && Keys(ms)[1..] == Keys(ms.more)
  {
  }

  lemma {:induction false} EntriesStart(v: JsonValue, ks: seq<string>, rest: string)
    requires v.Object? && |ks| > 1 && forall k :: k in ks ==> k in v.entries
    ensures RenderEntries(v, ks) + ("}" + rest) == RenderString(ks[0]) +
              (":" + (Render(v.entries[ks[0]]) + ("," + (RenderEntries(v, ks[1..]) + ("}" + rest)))))
  {
    EntriesText(v, ks, rest);
  }

  // ---------- Every value has a canonical tree ----------

  lemma {:induction false} HexOfFour(n: nat)
    requires n < 0x10000
    ensures forall c :: c in Hex4(n) ==> IsLowerHex(c) && IsHex(c)
    ensures HexNumber(Hex4(n)) == n
  {
    var digits := Hex4(n);
    var a, b, c, d := n / 4096, n / 256 % 16, n / 16 % 16, n % 16;
    HexDigitRoundTrip(a);
    HexDigitRoundTrip(b);
    HexDigitRoundTrip(c);
    HexDigitRoundTrip(d);
    assert digits[..3][..2] == digits[..2] && digits[..2][..1] == digits[..1] && digits[..1][..0] == "";
    assert HexNumber(digits[..1]) == a;
    assert HexNumber(digits[..2]) == a * 16 + b;
    assert HexNumber(digits[..3]) == (a * 16 + b) * 16 + c;
    NibblesValue(n);
  }

  lemma {:induction false} PartFor(c: char) returns (p: Part)
    ensures CanonicalPart(p) && GoodPart(p) && PartChar(p) == c
  {
    if ShortEscape(c).Some? {
      p := Escaped(ShortEscape(c).value);
    } else if IsControl(c) {
      HexOfFour(c as int);
      p := Unicode(Hex4(c as int));
    } else {
      p := Raw(c);
    }
  }

  lemma {:induction false} PartsFor(x: string) returns (parts: seq<Part>)
    ensures CanonicalParts(parts) && GoodParts(parts) && Chars(parts) == x
  {
    if x == "" {
      parts := [];
    } else {
      var first := PartFor(x[0]);
      var rest := PartsFor(x[1..]);
      parts := [first] + rest;
      assert parts[1..] == rest && x == [x[0]] + x[1..];
    }
  }

  lemma {:induction false} NatIsCanonical(n: nat)
    ensures RenderNat(n) == "0" <==> n == 0
    ensures RenderNat(n) != "" && (n > 0 ==> RenderNat(n)[0] != '0')
  {
    if n >= 10 {
      NatIsCanonical(n / 10);
    }
  }

  lemma {:induction false} TreeForNumber(n: I64) returns (t: Tree)
    ensures Good(t) && Canonical(t) && Meaning(t) == Number(n)
  {
    var digits := RenderNat(Abs(n));
    NatRoundTrip(Abs(n));
    NatIsCanonical(Abs(n));
    t := Tree("", Digits(n < 0, digits));
  }

  lemma {:induction false} TreeFor(v: JsonValue) returns (t: Tree)
    ensures Good(t) && Canonical(t) && Meaning(t) == v
    decreases v, 1
  {
    match v
    case Null => t := Tree("", Word(None));
    case Bool(flag) => t := Tree("", Word(Some(flag)));
    case Number(n) => t := TreeForNumber(n);
    case Str(x) =>
      var parts := PartsFor(x);
      t := Tree("", Quoted(parts));
    case Array(vs) =>
      var es := NoElement("");
      if vs != [] {
        es := ElementsFor(vs);
      }
      t := Tree("", Brackets(es));
    case Object(entries) =>
      var ms := BracesFor(v);
      t := Tree("", Braces(ms));
  }

  lemma {:induction false} ElementsFor(vs: seq<JsonValue>) returns (es: Elements)
    requires vs != []
    ensures GoodElements(es) && CanonicalElements(es) && Values(es) == vs
    decreases vs, 0
  {
    var first := TreeFor(vs[0]);
    assert vs == [vs[0]] + vs[1..];
    if |vs| == 1 {
      es := LastElement(first, "");
    } else {
      var more := ElementsFor(vs[1..]);
      es := Element(first, "", more);
    }
  }

  lemma {:induction false} BracesFor(v: JsonValue) returns (ms: Members)
    requires v.Object?
    ensures GoodMembers(ms) && CanonicalNode(Braces(ms)) && NodeMeaning(Braces(ms)) == v
    decreases v, 0, 1
  {
    var ks := SortedKeys(v.entries.Keys);
    if ks == [] {
      ms := NoMember("");
      assert v.entries == map[] by {
        assert forall k :: k in v.entries ==> k in ks;
      }
    } else {
      ms := MembersFor(v, ks);
      EntriesMatch(ms, v.entries);
    }
  }

  lemma {:induction false} EntriesMatch(ms: Members, m: map<string, JsonValue>)
    requires GoodMembers(ms) && Increasing(Keys(ms)) && Holds(ms, m)
    requires forall k :: k in Keys(ms) <==> k in m
    ensures Entries(ms, map[]) == m
  {
    AllHeld(ms, map[]);
    SameEntries(ms, m, Entries(ms, map[]));
  }

  lemma {:induction false} SameEntries(ms: Members, a: map<string, JsonValue>, b: map<string, JsonValue>)
    requires GoodMembers(ms) && Holds(ms, a) && Holds(ms, b)
    ensures forall k :: k in Keys(ms) ==> k in a && k in b && a[k] == b[k]
    decreases ms
  {
    if ms.Member? {
      SameEntries(ms.more, a, b);
    }
  }

  lemma {:induction false} EntryFor(v: JsonValue, k: string) returns (e: Entry)
    requires v.Object? && k in v.entries
    ensures GoodEntry(e) && CanonicalEntry(e) && KeyOf(e) == k && HoldsEntry(e, v.entries)
    decreases v, 0, 0, 0
  {
    var key := PartsFor(k);
    var value := TreeFor(v.entries[k]);
    e := Entry("", key, "", value);
  }

  lemma {:induction false} MembersFor(v: JsonValue, ks: seq<string>) returns (ms: Members)
    requires v.Object? && ks != [] && Increasing(ks) && forall k :: k in ks ==> k in v.entries
    ensures GoodMembers(ms) && CanonicalMembers(ms) && Keys(ms) == ks && Holds(ms, v.entries)
    decreases v, 0, 0, |ks|
  {
    var e := EntryFor(v, ks[0]);
    assert ks == [ks[0]] + ks[1..];
    if |ks| == 1 {
      ms := LastMember(e, "");
    } else {
      var more := MembersFor(v, ks[1..]);
      ms := Member(e, "", more);
    }
  }

  // ---------- The theorems ----------

  /** `s` is the spelling of a canonical tree that means `v`. */
  ghost predicate Canonically(s: string, v: JsonValue) {
    exists t :: CanonicallyBy(s, v, t)
  }

  ghost predicate CanonicallyBy(s: string, v: JsonValue, t: Tree) {
    Good(t) && Canonical(t) && Meaning(t) == v && s == Spell(t, "")
  }

  /** Every value has exactly one canonical spelling, and that is the text it prints as. */
  lemma {:induction false} PrintsCanonically(v: JsonValue, s: string)
    ensures s == Render(v) <==> Canonically(s, v)
  {
    assert Render(v) + "" == Render(v);
    if s == Render(v) {
      var t := TreeFor(v);
      CanonicalIsRendered(t, "");
      assert CanonicallyBy(s, v, t);
    }
    if Canonically(s, v) {
      var t :| CanonicallyBy(s, v, t);
      CanonicalIsRendered(t, "");
    }
  }

  /** Numbers print without leading zeros, and as shortly as they can be written. */
  lemma {:induction false} ShortestDigits(n: nat, ds: string)
    requires ds != "" && (forall c :: c in ds ==> IsDigit(c)) && DecimalValue(ds) == n
    ensures |RenderNat(n)| <= |ds| && (|ds| == |RenderNat(n)| ==> ds == RenderNat(n))
    decreases |ds|
  {
    assert ds[0] in ds;
    if ds == "0" || ds[0] != '0' {
      DigitsAreRendered(ds);
    } else {
      DropZero(ds);
      ShortestDigits(n, ds[1..]);
    }
  }

  lemma {:induction false} DropZero(ds: string)
    requires |ds| > 1 && ds[0] == '0' && forall c :: c in ds ==> IsDigit(c)
    ensures (forall c :: c in ds[1..] ==> IsDigit(c)) && DecimalValue(ds[1..]) == DecimalValue(ds)
    decreases |ds|
  {
    var front := ds[..|ds| - 1];
    assert ds[1..][..|ds| - 2] == front[1..] && ds[1..][|ds| - 2] == ds[|ds| - 1];
    if |ds| > 2 {
      DropZero(front);
    } else {
      assert front == "0" && front[..0] == "" && front[1..] == "";
    }
  }
}
