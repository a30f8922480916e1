/** What the functions of `Mcp` compute, said without them: which URLs are unwrapped, to
    which value, how a value is decoded, and what a signature reads. */
module McpUrls {
  import opened Text
  import opened Utf8
  import opened Mcp

  // ---------- Marked URLs ----------

  /** A proxy URL is one that holds either path. */
  lemma {:induction false} MarkedExactly(url: string)
    ensures HasMarker(url) <==>
            Contains(url, "/v2/session_ingress/shttp/mcp/") || Contains(url, "/v2/ccr-sessions/")
  {
    FindsContained(url, MARKERS[0]);
    FindsContained(url, MARKERS[1]);
  }

  // ---------- Query pairs ----------

  /** The pair is named `mcp_url` and has a value. */
  predicate Wraps(pair: string) {
    "mcp_url=" <= pair
  }

  lemma {:induction false} PairWraps(pair: string)
    ensures McpUrlValue([pair]) == if Wraps(pair) then Some(pair[8..]) else None
  {
    var name := "mcp_url";
    assert "mcp_url=" == name + "=";
    if Wraps(pair) {
      assert pair == name + (['='] + pair[8..]);
      FindAfterPrefix(name, '=', pair[8..]);
      assert pair[..7] == name;
    } else if Find(pair, "=").Some? {
      var i := Find(pair, "=").value;
      AtIsSlice(pair, "=", i);
      NamedIsWrapping(pair, i);
    }
  }

  lemma {:induction false} NamedIsWrapping(pair: string, i: nat)
    requires i < |pair| && pair[i] == '='
    ensures pair[..i] == "mcp_url" ==> Wraps(pair)
  {
    assert pair == pair[..i] + ("=" + pair[i + 1..]);
    assert "mcp_url=" == "mcp_url" + "=";
  }

  lemma {:induction false} PairsStep(pairs: seq<string>)
    requires pairs != []
    ensures McpUrlValue(pairs) == if Wraps(pairs[0]) then Some(pairs[0][8..]) else McpUrlValue(pairs[1..])
  {
    PairWraps(pairs[0]);
    assert [pairs[0]][1..] == [];
    assert McpUrlValue([]) == None;
  }

  /** The first pair that wraps a value decides; later ones are not looked at. */
  lemma {:induction false} FirstPairDecides(pairs: seq<string>, i: nat)
    requires i < |pairs| && Wraps(pairs[i]) && forall j :: 0 <= j < i ==> !Wraps(pairs[j])
    ensures McpUrlValue(pairs) == Some(pairs[i][8..])
  {
    PairsStep(pairs);
    if i > 0 {
      FirstPairDecides(pairs[1..], i - 1);
    }
  }

  lemma {:induction false} NoPairDecides(pairs: seq<string>)
    requires forall pair :: pair in pairs ==> !Wraps(pair)
    ensures McpUrlValue(pairs) == None
  {
    if pairs != [] {
      assert pairs[0] in pairs;
      PairsStep(pairs);
      NoPairDecides(pairs[1..]);
    }
  }

  // ---------- Unwrapping ----------

  /** A URL without a marker, or without a query, stays as it is. */
  lemma {:induction false} KeptWithoutQuery(url: string)
    requires !HasMarker(url) || '?' !in url
    ensures UnwrapProxyUrl(url) == Ok(url)
  {
    if '?' !in url {
      FindNowhere(url, '?');
    }
  }

  lemma {:induction false} QueryOf(base: string, pairs: seq<string>)
    requires '?' !in base && pairs != [] && forall pair :: pair in pairs ==> '&' !in pair
    ensures var url := base + ("?" + Join(pairs, "&"));
            Find(url, "?") == Some(|base|) && SplitOn(url[|base| + 1..], '&') == pairs
  {
    var query := Join(pairs, "&");
    var url := base + ("?" + query);
    FindAfterPrefix(base, '?', query);
    assert url[|base| + 1..] == query;
    SplitOfJoin(pairs, '&');
  }

  /** A marked URL whose query has no pair that wraps a value stays as it is. */
  lemma {:induction false} KeptWithoutValue(base: string, pairs: seq<string>)
    requires '?' !in base && pairs != [] && forall pair :: pair in pairs ==> '&' !in pair
    requires forall pair :: pair in pairs ==> !Wraps(pair)
    ensures var url := base + ("?" + Join(pairs, "&"));
            UnwrapProxyUrl(url) == Ok(url)
  {
    QueryOf(base, pairs);
    NoPairDecides(pairs);
  }

  /** A marked URL becomes the decoded value of the first pair that wraps one. */
  lemma {:induction false} UnwrappedFromFirst(base: string, pairs: seq<string>, i: nat)
    requires '?' !in base && pairs != [] && forall pair :: pair in pairs ==> '&' !in pair
    requires i < |pairs| && Wraps(pairs[i]) && forall j :: 0 <= j < i ==> !Wraps(pairs[j])
    requires HasMarker(base + ("?" + Join(pairs, "&")))
    ensures UnwrapProxyUrl(base + ("?" + Join(pairs, "&"))) ==
            match PercentDecode(pairs[i][8..])
            case None => Err(SliceInsideCharacter)
            case Some(decoded) => Ok(decoded)
  {
    QueryOf(base, pairs);
    FirstPairDecides(pairs, i);
  }

  // ---------- Decoding ----------

  /** Without percent signs only plus signs change. */
  lemma {:induction false} DecodedWithoutPercent(v: seq<byte>)
    requires 0x25 !in v
    ensures var r := DecodeBytes(v);
            r.Some? && |r.value| == |v| &&
            forall i :: 0 <= i < |v| ==> r.value[i] == if v[i] == 0x2B then 0x20 else v[i]
  {
    if v != [] {
      assert v[0] in v;
      DecodedWithoutPercent(v[1..]);
    }
  }

  /** The value of a hexadecimal digit of either case. */
  predicate IsDigitOf(d: byte, n: int) {
    (0 <= n < 10 && d == 0x30 + n) || (10 <= n < 16 && (d == 0x41 + n - 10 || d == 0x61 + n - 10))
  }

  lemma {:induction false} HexValueExactly(d: byte, n: int)
    ensures HexValue(d as char) == Some(n) <==> IsDigitOf(d, n)
  {
  }

  /** A percent sign and two digits are one byte. */
  lemma {:induction false} EscapeDecoded(a: byte, b: byte, high: int, low: int, rest: seq<byte>)
    requires IsDigitOf(a, high) && IsDigitOf(b, low)
    requires rest == [] || !IsContinuation(rest[0])
    ensures DecodeBytes([0x25, a, b] + rest) ==
            match DecodeBytes(rest)
            case None => None
            case Some(more) => Some([16 * high + low] + more)
  {
    HexValueExactly(a, high);
    HexValueExactly(b, low);
    assert ([0x25, a, b] + rest)[3..] == rest;
  }

  /** A plus sign may stand for the first digit, as in the source's number parser. */
  lemma {:induction false} SignedEscape(b: byte, low: int, rest: seq<byte>)
    requires IsDigitOf(b, low)
    requires rest == [] || !IsContinuation(rest[0])
    ensures DecodeBytes([0x25, 0x2B, b] + rest) ==
            match DecodeBytes(rest)
            case None => None
            case Some(more) => Some([low] + more)
  {
    HexValueExactly(b, low);
    assert ([0x25, 0x2B, b] + rest)[3..] == rest;
  }

  /** Any other percent sign stands for itself. */
  lemma {:induction false} BrokenEscape(rest: seq<byte>)
    requires |rest| < 2 || !(exists n :: IsDigitOf(rest[1], n)) ||
             (rest[0] != 0x2B && !exists n :: IsDigitOf(rest[0], n))
    requires |rest| < 3 || !IsContinuation(rest[2])
    ensures DecodeBytes([0x25] + rest) ==
            match DecodeBytes(rest)
            case None => None
            case Some(more) => Some([0x25] + more)
  {
    var v := [0x25] + rest;
    assert v[1..] == rest;
    if |rest| >= 2 {
      assert v[1] == rest[0] && v[2] == rest[1];
      NoDigit(rest[1]);
      NoDigit(rest[0]);
    }
  }

  lemma {:induction false} NoDigit(d: byte)
    ensures HexValue(d as char).None? || IsDigitOf(d, HexValue(d as char).value)
  {
  }

  // ---------- Signatures ----------

  /** Backslashes and pipes are marked with a backslash, and nothing else changes. */
  lemma {:induction false} EscapedText(a: string, b: string)
    ensures EscapePart(a + ("\\" + b)) == EscapePart(a) + ("\\\\" + EscapePart(b))
    ensures EscapePart(a + ("|" + b)) == EscapePart(a) + ("\\|" + EscapePart(b))
    ensures '\\' !in a && '|' !in a ==> EscapePart(a) == a
  {
    EscapedConcat(a, "\\" + b);
    EscapedConcat(a, "|" + b);
    EscapedConcat("\\", b);
    EscapedConcat("|", b);
    EscapedChars();
    Assoc(EscapePart(a), "\\\\", EscapePart(b));
    Assoc(EscapePart(a), "\\|", EscapePart(b));
    if '\\' !in a && '|' !in a {
      EscapeIsEach(a);
      PlainEach(a);
    }
  }

  lemma {:induction false} EscapedConcat(a: string, b: string)
    ensures EscapePart(a + b) == EscapePart(a) + EscapePart(b)
  {
    ReplaceConcat(a, b, '\\', "\\\\");
    ReplaceConcat(ReplaceChar(a, '\\', "\\\\"), ReplaceChar(b, '\\', "\\\\"), '|', "\\|");
  }

  lemma {:induction false} EscapedChars()
    ensures EscapePart("\\") == "\\\\" && EscapePart("|") == "\\|"
  {
    EscapeIsEach("\\");
    EscapeIsEach("|");
    assert "\\"[1..] == "" && "|"[1..] == "";
  }

  lemma {:induction false} PlainEach(a: string)
    requires '\\' !in a && '|' !in a
    ensures EscapeEach(a) == a
  {
    if a != "" {
      assert a[0] in a;
      PlainEach(a[1..]);
    }
  }

  /** A command line of words without backslash and pipe is written with a pipe between
      its words. */
  lemma {:induction false} StdioSignature(command: string, args: seq<string>)
    requires forall word :: word in [command] + args ==> '\\' !in word && '|' !in word
    ensures ServerSignature(Stdio(command, args)) ==
            Ok(Some("stdio:[" + Join([command] + args, "|") + "]"))
  {
    var words := [command] + args;
    forall i | 0 <= i < |words| ensures EscapePart(words[i]) == words[i] {
      assert words[i] in words;
      EscapedText(words[i], "");
    }
    assert EscapeParts(words) == words;
    assert "stdio:" + ("[" + Join(words, "|") + "]") == "stdio:[" + Join(words, "|") + "]";
  }

  /** A remote server is known by what its URL unwraps to, a server of the program's own by
      nothing. */
  lemma {:induction false} RemoteSignature(config: McpServerConfig)
    requires !config.Stdio?
    ensures ServerSignature(config) == Ok(None) <==> config.Sdk?
    ensures !config.Sdk? ==>
              match UnwrapProxyUrl(config.url)
              case Ok(url) => ServerSignature(config) == Ok(Some("url:" + url))
              case Err(p) => ServerSignature(config) == Err(p)
  {
  }
}
