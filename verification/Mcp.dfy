/** Model of the signatures and of the proxy-URL unwrapping in `runtime/src/mcp.rs`. */
module Mcp {
  import opened Text
  import opened Utf8

  // ---------- Command signatures ----------

  /** `str::replace` of one character by a text. */
  function ReplaceChar(s: string, c: char, text: string): string {
    if s == "" then "" else (if s[0] == c then text else [s[0]]) + ReplaceChar(s[1..], c, text)
  }

  /** A part of a command: backslashes doubled, then pipes escaped. */
  function EscapePart(part: string): string {
    ReplaceChar(ReplaceChar(part, '\\', "\\\\"), '|', "\\|")
  }

  function EscapeParts(command: seq<string>): seq<string> {
    seq(|command|, i requires 0 <= i < |command| => EscapePart(command[i]))
  }

  /** `render_command_signature`. */
  function RenderCommand(command: seq<string>): string {
    "[" + Join(EscapeParts(command), "|") + "]"
  }

  /** The two replacements together work character by character. */
  function EscapeOne(c: char): string {
    if c == '\\' then ['\\', '\\'] else if c == '|' then ['\\', '|'] else [c]
  }

  function EscapeEach(s: string): string {
    if s == "" then "" else EscapeOne(s[0]) + EscapeEach(s[1..])
  }

  lemma {:induction false} ReplaceConcat(a: string, b: string, c: char, text: string)
    ensures ReplaceChar(a + b, c, text) == ReplaceChar(a, c, text) + ReplaceChar(b, c, text)
  {
    if a == "" {
      assert a + b == b;
    } else {
      assert (a + b)[1..] == a[1..] + b;
      ReplaceConcat(a[1..], b, c, text);
      Assoc(if a[0] == c then text else [a[0]], ReplaceChar(a[1..], c, text), ReplaceChar(b, c, text));
    }
  }

  lemma {:induction false} EscapeIsEach(s: string)
    ensures EscapePart(s) == EscapeEach(s)
  {
    if s != "" {
      var front := if s[0] == '\\' then "\\\\" else [s[0]];
      var rest := ReplaceChar(s[1..], '\\', "\\\\");
      EscapeIsEach(s[1..]);
      ReplaceConcat(front, rest, '|', "\\|");
      EscapeFront(s[0]);
    }
  }

  lemma {:induction false} EscapeFront(c: char)
    ensures ReplaceChar(if c == '\\' then "\\\\" else [c], '|', "\\|") == EscapeOne(c)
  {
    assert [c][1..] == "";
    var two := "\\\\";
    assert two[1..] == "\\" && two[1..][1..] == "";
  }

  /** Reads a signature body back: the parts, with `part` begun. */
  function ReadParts(s: string, part: string): seq<string>
    decreases |s|
  {
    if s == "" then [part]
    else if s[0] == '|' then [part] + ReadParts(s[1..], "")
    else if s[0] == '\\' && |s| > 1 then ReadParts(s[2..], part + [s[1]])
    else ReadParts(s[1..], part + [s[0]])
  }

  lemma {:induction false} ReadEscaped(s: string, rest: string, part: string)
    ensures ReadParts(EscapeEach(s) + rest, part) == ReadParts(rest, part + s)
  {
    if s == "" {
      assert EscapeEach(s) + rest == rest && part + s == part;
    } else {
      var tail := EscapeEach(s[1..]) + rest;
      Assoc(EscapeOne(s[0]), EscapeEach(s[1..]), rest);
      ReadOne(s[0], tail, part);
      ReadEscaped(s[1..], rest, part + [s[0]]);
      assert part + [s[0]] + s[1..] == part + s;
    }
  }

  lemma {:induction false} ReadOne(c: char, tail: string, part: string)
    ensures ReadParts(EscapeOne(c) + tail, part) == ReadParts(tail, part + [c])
  {
    var s := EscapeOne(c) + tail;
    assert s[|EscapeOne(c)|..] == tail;
  }

  /** The signature of a non-empty command can be read back. */
  lemma {:induction false} ReadJoined(command: seq<string>)
    requires command != []
    ensures ReadParts(Join(EscapeParts(command), "|"), "") == command
    decreases |command|
  {
    var e := EscapeParts(command);
    EscapeIsEach(command[0]);
    assert "" + command[0] == command[0];
    if |command| == 1 {
      ReadEscaped(command[0], "", "");
      assert EscapeEach(command[0]) + "" == EscapeEach(command[0]);
      assert command == [command[0]];
    } else {
      var more := Join(EscapeParts(command[1..]), "|");
      assert e[1..] == EscapeParts(command[1..]);
      Assoc(e[0], "|", more);
      ReadEscaped(command[0], "|" + more, "");
      ReadPipe(more, command[0]);
      ReadJoined(command[1..]);
      assert command == [command[0]] + command[1..];
    }
  }

  lemma {:induction false} ReadPipe(more: string, part: string)
    ensures ReadParts("|" + more, part) == [part] + ReadParts(more, "")
  {
    assert ("|" + more)[1..] == more;
  }

  /** Signatures tell commands apart, but for one pair: no word and one empty word. */
  lemma {:induction false} CommandSignature(a: seq<string>, b: seq<string>)
    ensures RenderCommand(a) == RenderCommand(b) <==> Normal(a) == Normal(b)
  {
    NormalRenders(a);
    NormalRenders(b);
    if RenderCommand(a) == RenderCommand(b) {
      Unbracket(Join(EscapeParts(Normal(a)), "|"), Join(EscapeParts(Normal(b)), "|"));
      ReadJoined(Normal(a));
      ReadJoined(Normal(b));
    }
  }

  function Normal(command: seq<string>): (r: seq<string>)
    ensures r != []
  {
    if command == [] then [""] else command
  }

  lemma {:induction false} NormalRenders(command: seq<string>)
    ensures RenderCommand(Normal(command)) == RenderCommand(command)
  {
    if command == [] {
      assert EscapePart("") == "";
      assert EscapeParts([""]) == [""];
    }
  }

  lemma {:induction false} Unbracket(x: string, y: string)
    requires "[" + x + "]" == "[" + y + "]"
    ensures x == y
  {
    var s := "[" + x + "]";
    assert x == s[1..|s| - 1] && y == s[1..|s| - 1];
  }

  // ---------- Percent-encoding ----------

  /** `u8::from_str_radix(_, 16)` on two bytes: two digits, or a plus sign and one. */
  function HexByte(a: byte, b: byte): Option<byte> {
    match HexValue(b as char)
    case None => None
    case Some(low) =>
      if a == '+' as int then Some(low)
      else match HexValue(a as char)
        case None => None
        case Some(high) => Some(high * 16 + low)
  }

  /** The loop of `percent_decode` from the byte `v[0]` on. `None` stands for the panic
      of a slice that ends inside a character. */
  function DecodeBytes(v: seq<byte>): Option<seq<byte>>
    decreases |v|
  {
    if v == [] then Some([])
    else if v[0] == '%' as int && |v| > 2 then
      if |v| > 3 && IsContinuation(v[3]) then None
      else match HexByte(v[1], v[2])
        case Some(b) => Emit(b, DecodeBytes(v[3..]))
        case None => Emit(v[0], DecodeBytes(v[1..]))
    else Emit(if v[0] == '+' as int then ' ' as int else v[0], DecodeBytes(v[1..]))
  }

  function Emit(b: byte, rest: Option<seq<byte>>): Option<seq<byte>> {
    match rest
    case None => None
    case Some(bytes) => Some([b] + bytes)
  }

  /** `percent_decode`: the loop over the bytes of `value`. */
  method PercentDecodeLoop(value: seq<byte>) returns (decoded: Option<seq<byte>>)
    ensures decoded == DecodeBytes(value)
  {
    var bytes: seq<byte> := [];
    var index := 0;
    assert value[0..] == value && bytes + [] == bytes;
    if DecodeBytes(value).Some? { assert bytes + DecodeBytes(value).value == DecodeBytes(value).value; }
    while index < |value|
      invariant 0 <= index <= |value|
      invariant DecodeBytes(value) == match DecodeBytes(value[index..])
                                      case None => None
                                      case Some(more) => Some(bytes + more)
      decreases |value| - index
    {
      ghost var here := value[index..];
      assert here[1..] == value[index + 1..];
      var byte := value[index];
      if byte == '%' as int && index + 2 < |value| {
        if index + 3 < |value| && IsContinuation(value[index + 3]) {
          return None;
        }
        assert here[3..] == value[index + 3..];
        var hex := HexByte(value[index + 1], value[index + 2]);
        if hex.Some? {
          EmitThen(bytes, hex.value, DecodeBytes(value[index + 3..]));
          bytes := bytes + [hex.value];
          index := index + 3;
          continue;
        }
      } else if byte == '+' as int {
        byte := ' ' as int;
      }
      EmitThen(bytes, byte, DecodeBytes(value[index + 1..]));
      bytes := bytes + [byte];
      index := index + 1;
    }
    decoded := Some(bytes);
    assert value[index..] == [] && bytes + [] == bytes;
  }

  lemma {:induction false} EmitThen(bytes: seq<byte>, b: byte, rest: Option<seq<byte>>)
    ensures rest.Some? ==> bytes + Emit(b, rest).value == bytes + [b] + rest.value
  {
  }

  function PercentDecode(value: string): Option<string> {
    match DecodeBytes(Encode(value))
    case None => None
    case Some(bytes) => Some(Lossy(bytes))
  }

  /** The unreserved characters of RFC 3986, section 2.3. */
  predicate IsUnreserved(b: byte) {
    ('a' as int <= b <= 'z' as int) || ('A' as int <= b <= 'Z' as int) || ('0' as int <= b <= '9' as int) ||
    b == '-' as int || b == '.' as int || b == '_' as int || b == '~' as int
  }

  /** Percent-encoding of a byte (RFC 3986, section 2.1). */
  function EncodeByte(b: byte): seq<byte> {
    if IsUnreserved(b) then [b] else ['%' as int, HexDigit(b / 16) as int, HexDigit(b % 16) as int]
  }

  function PercentEncode(bytes: seq<byte>): seq<byte> {
    if bytes == [] then [] else EncodeByte(bytes[0]) + PercentEncode(bytes[1..])
  }

  lemma {:induction false} HexByteRoundTrip(b: byte)
    ensures HexByte(HexDigit(b / 16) as int, HexDigit(b % 16) as int) == Some(b)
  {
    HexDigitRoundTrip(b / 16);
    HexDigitRoundTrip(b % 16);
  }

  predicate Ascii(v: seq<byte>) {
    forall b :: b in v ==> b < 0x80
  }

  lemma {:induction false} EncodeByteAscii(b: byte)
    ensures Ascii(EncodeByte(b))
    ensures '&' as int !in EncodeByte(b) && '=' as int !in EncodeByte(b)
  {
  }

  lemma {:induction false} PercentEncodeAscii(bytes: seq<byte>)
    ensures Ascii(PercentEncode(bytes))
    ensures '&' as int !in PercentEncode(bytes) && '=' as int !in PercentEncode(bytes)
  {
    if bytes != [] {
      EncodeByteAscii(bytes[0]);
      PercentEncodeAscii(bytes[1..]);
    }
  }

  lemma {:induction false} DecodeEncodedByte(b: byte, rest: seq<byte>)
    requires rest != [] ==> rest[0] < 0x80
    ensures DecodeBytes(EncodeByte(b) + rest) == Emit(b, DecodeBytes(rest))
  {
    var v := EncodeByte(b) + rest;
    if IsUnreserved(b) {
      assert v[1..] == rest;
    } else {
      HexByteRoundTrip(b);
      assert v[3..] == rest;
    }
  }

  /** Decoding undoes percent-encoding, for every byte string. */
  lemma {:induction false} DecodeEncoded(bytes: seq<byte>)
    ensures DecodeBytes(PercentEncode(bytes)) == Some(bytes)
  {
    if bytes != [] {
      var rest := PercentEncode(bytes[1..]);
      PercentEncodeAscii(bytes[1..]);
      if rest != [] { assert rest[0] in rest; }
      DecodeEncodedByte(bytes[0], rest);
      DecodeEncoded(bytes[1..]);
      assert bytes == [bytes[0]] + bytes[1..];
    }
  }

  /** The byte at `i` is a percent sign and the third byte after it is inside a character,
      so that the two bytes between them are no slice of the text. */
  predicate SplitsAt(v: seq<byte>, i: nat) {
    i + 3 < |v| && v[i] == '%' as int && IsContinuation(v[i + 3])
  }

  ghost predicate Sliceable(v: seq<byte>) {
    forall i: nat :: !SplitsAt(v, i)
  }

  lemma {:induction false} SplitsLater(v: seq<byte>, n: nat, i: nat)
    requires n <= |v|
    ensures SplitsAt(v[n..], i) <==> SplitsAt(v, n + i)
  {
  }

  lemma {:induction false} NoSplit(v: seq<byte>)
    requires Sliceable(v)
    ensures DecodeBytes(v).Some?
    decreases |v|
  {
    if v != [] {
      forall i: nat ensures !SplitsAt(v[1..], i) {
        SplitsLater(v, 1, i);
      }
      NoSplit(v[1..]);
      if |v| > 2 {
        forall i: nat ensures !SplitsAt(v[3..], i) {
          SplitsLater(v, 3, i);
        }
        assert !SplitsAt(v, 0);
        NoSplit(v[3..]);
      }
    }
  }

  /** Whatever is decoded before it, a percent sign is reached as one: it is no hexadecimal
      digit. */
  lemma {:induction false} SplitReached(v: seq<byte>, i: nat)
    requires SplitsAt(v, i)
    ensures DecodeBytes(v) == None
    decreases |v|
  {
    if i > 0 {
      SplitsLater(v, 1, i - 1);
      SplitReached(v[1..], i - 1);
      if i >= 3 {
        SplitsLater(v, 3, i - 3);
        SplitReached(v[3..], i - 3);
      }
    }
  }

  /** The loop gets through exactly when no percent sign has the inside of a character three
      bytes after it; so always on an ASCII text. */
  lemma {:induction false} PanicsExactly(v: seq<byte>)
    ensures DecodeBytes(v).Some? <==> Sliceable(v)
  {
    if Sliceable(v) {
      NoSplit(v);
    } else {
      var i: nat :| SplitsAt(v, i);
      SplitReached(v, i);
    }
  }

  // ---------- Proxy URLs ----------

  const MARKERS := ["/v2/session_ingress/shttp/mcp/", "/v2/ccr-sessions/"]

  /** A slice of a `str` that begins or ends inside a character stops the program. */
  datatype Panic = SliceInsideCharacter

  predicate HasMarker(url: string) {
    Find(url, MARKERS[0]).Some? || Find(url, MARKERS[1]).Some?
  }

  /** The value of the first pair named `mcp_url` that has one. */
  function McpUrlValue(pairs: seq<string>): Option<string>
    decreases |pairs|
  {
    if pairs == [] then None
    else match Find(pairs[0], "=")
      case Some(i) =>
        if pairs[0][..i] == "mcp_url" then Some(pairs[0][i + 1..]) else McpUrlValue(pairs[1..])
      case None => McpUrlValue(pairs[1..])
  }

  /** `unwrap_ccr_proxy_url`. */
  function UnwrapProxyUrl(url: string): Result<string, Panic> {
    if !HasMarker(url) then Ok(url)
    else match Find(url, "?")
      case None => Ok(url)
      case Some(start) =>
        match McpUrlValue(SplitOn(url[start + 1..], '&'))
        case None => Ok(url)
        case Some(value) =>
          match PercentDecode(value)
          case None => Err(SliceInsideCharacter)
          case Some(decoded) => Ok(decoded)
  }

  /** ASCII bytes as text. */
  function Chars(v: seq<byte>): (r: string)
    requires Ascii(v)
    ensures |r| == |v|
  {
    seq(|v|, i requires 0 <= i < |v| => AsciiChar(v[i]))
  }

  function AsciiChar(b: byte): char {
    if b < 0x80 then b as char else ' '
  }

  lemma {:induction false} EncodeChars(v: seq<byte>)
    requires Ascii(v)
    ensures Encode(Chars(v)) == v
  {
    if v != [] {
      var s := Chars(v);
      assert v[0] in v && forall b :: b in v[1..] ==> b in v;
      assert s[1..] == Chars(v[1..]);
      EncodeStep(s);
      EncodeChars(v[1..]);
      assert v == [v[0]] + v[1..];
    }
  }

  lemma {:induction false} CharsLack(v: seq<byte>, c: char)
    requires Ascii(v) && c as int < 0x80 && c as int !in v
    ensures c !in Chars(v)
  {
    forall i | 0 <= i < |v| ensures Chars(v)[i] != c {
      assert v[i] in v;
    }
  }

  /** A text as the value of a query parameter. */
  function QueryValue(u: string): string {
    PercentEncodeAscii(Encode(u));
    Chars(PercentEncode(Encode(u)))
  }

  lemma {:induction false} QueryValueDecodes(u: string)
    ensures PercentDecode(QueryValue(u)) == Some(u)
    ensures '&' !in QueryValue(u)
  {
    var v := PercentEncode(Encode(u));
    PercentEncodeAscii(Encode(u));
    EncodeChars(v);
    DecodeEncoded(Encode(u));
    LossyOfEncode(u);
    CharsLack(v, '&');
  }

  lemma {:induction false} OnePair(value: string)
    requires '&' !in value
    ensures McpUrlValue(SplitOn("mcp_url=" + value, '&')) == Some(value)
  {
    var query := "mcp_url=" + value;
    FindNowhere(query, '&');
    assert query == "mcp_url" + (['='] + value);
    FindAfterPrefix("mcp_url", '=', value);
    assert query[..|"mcp_url"|] == "mcp_url" && query[|"mcp_url"| + 1..] == value;
  }

  lemma {:induction false} MarkerStays(base: string, rest: string)
    requires HasMarker(base)
    ensures HasMarker(base + rest)
  {
    for m := 0 to 2
      invariant forall k :: 0 <= k < m && Find(base, MARKERS[k]).Some? ==> Find(base + rest, MARKERS[k]).Some?
    {
      if Find(base, MARKERS[m]).Some? {
        AtInPrefix(base, rest, MARKERS[m], Find(base, MARKERS[m]).value);
      }
    }
  }

  /** A marked proxy URL without an earlier query is decoded from its wrapped value. */
  lemma {:induction false} UnwrapDecodes(base: string, value: string)
    requires HasMarker(base) && '?' !in base && '&' !in value
    ensures UnwrapProxyUrl(base + ("?" + ("mcp_url=" + value))) ==
            match PercentDecode(value)
            case None => Err(SliceInsideCharacter)
            case Some(decoded) => Ok(decoded)
  {
    var query := "mcp_url=" + value;
    var url := base + ("?" + query);
    MarkerStays(base, "?" + query);
    FindAfterPrefix(base, '?', query);
    assert url[|base| + 1..] == query;
    OnePair(value);
  }

  /** The wrapped URL is recovered, whatever characters it holds, from any proxy URL
      without an earlier query. */
  lemma {:induction false} UnwrapRecovers(base: string, u: string)
    requires HasMarker(base) && '?' !in base
    ensures UnwrapProxyUrl(base + ("?" + ("mcp_url=" + QueryValue(u)))) == Ok(u)
  {
    QueryValueDecodes(u);
    UnwrapDecodes(base, QueryValue(u));
  }

  /** The wrapped value of a proxy URL, if unwrapping decodes one. */
  function WrappedValue(url: string): Option<string> {
    if !HasMarker(url) then None
    else match Find(url, "?")
      case None => None
      case Some(start) => McpUrlValue(SplitOn(url[start + 1..], '&'))
  }

  /** Unwrapping panics exactly when there is a wrapped value whose bytes cannot be sliced. */
  lemma {:induction false} UnwrapPanicsExactly(url: string)
    ensures UnwrapProxyUrl(url).Err? <==> WrappedValue(url).Some? && !Sliceable(Encode(WrappedValue(url).value))
  {
    if WrappedValue(url).Some? {
      PanicsExactly(Encode(WrappedValue(url).value));
    }
  }

  /** It does on any marked URL that wraps the text `%aé`. */
  lemma {:induction false} UnwrapPanics(base: string)
    requires HasMarker(base) && '?' !in base
    ensures UnwrapProxyUrl(base + ("?" + ("mcp_url=" + "%a\U{E9}"))) == Err(SliceInsideCharacter)
  {
    var value := "%a\U{E9}";
    EncodeStep(value);
    EncodeStep(value[1..]);
    EncodeStep(value[2..]);
    assert value[1..] == "a\U{E9}" && value[2..] == "\U{E9}" && value[3..] == "";
    assert Encode(value) == [0x25, 0x61, 0xC3, 0xA9];
    assert SplitsAt(Encode(value), 0);
    SplitReached(Encode(value), 0);
    UnwrapDecodes(base, value);
  }

  // ---------- Server signatures ----------

  /** The fields of a server configuration that its signature reads. */
  datatype McpServerConfig =
    | Stdio(command: string, args: seq<string>)
    | Sse(url: string)
    | Http(url: string)
    | Ws(url: string)
    | ManagedProxy(url: string)
    | Sdk(name: string)

  /** `mcp_server_signature`. */
  function ServerSignature(config: McpServerConfig): Result<Option<string>, Panic> {
    match config
    case Stdio(command, args) => Ok(Some("stdio:" + RenderCommand([command] + args)))
    case Sdk(_) => Ok(None)
    case _ =>
      match UnwrapProxyUrl(config.url)
      case Ok(url) => Ok(Some("url:" + url))
      case Err(p) => Err(p)
  }

  /** Two servers have the same signature exactly when they run the same command line
      or reach the same URL behind their proxies. */
  lemma {:induction false} SameSignature(a: McpServerConfig, b: McpServerConfig)
    requires ServerSignature(a).Ok? && ServerSignature(b).Ok?
    requires ServerSignature(a).value.Some? && ServerSignature(b).value.Some?
    ensures ServerSignature(a) == ServerSignature(b) <==>
            if a.Stdio? then b.Stdio? && a.command == b.command && a.args == b.args
            else !b.Stdio? && UnwrapProxyUrl(a.url) == UnwrapProxyUrl(b.url)
  {
    if a.Stdio? && b.Stdio? {
      CommandSignature([a.command] + a.args, [b.command] + b.args);
      SameTail("stdio:", RenderCommand([a.command] + a.args), RenderCommand([b.command] + b.args));
      var x, y := [a.command] + a.args, [b.command] + b.args;
      assert x[0] == a.command && x[1..] == a.args && y[0] == b.command && y[1..] == b.args;
    } else if a.Stdio? || b.Stdio? {
      assert ServerSignature(a).value.value[0] != ServerSignature(b).value.value[0];
    } else {
      SameTail("url:", UnwrapProxyUrl(a.url).value, UnwrapProxyUrl(b.url).value);
    }
  }

  lemma {:induction false} SameTail(p: string, x: string, y: string)
    ensures p + x == p + y <==> x == y
  {
    assert (p + x)[|p|..] == x && (p + y)[|p|..] == y;
  }
}
