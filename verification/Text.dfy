/** Strings and search helpers shared by the models: the standard-library text
    operations the Rust code calls, stated on sequences. */
module Text {

  datatype Option<+T> = None | Some(value: T)

  datatype Result<+T, +E> = Ok(value: T) | Err(error: E)

  type byte = b: int | 0 <= b < 256

  /** The pattern `p` occurs in `s` at index `i`. */
  predicate At<T(==)>(s: seq<T>, p: seq<T>, i: int) {
    0 <= i && i + |p| <= |s| && Matches(s, p, i, |p|)
  }

  /** The first `n` elements of `p` are found in `s` from index `i` on. */
  predicate Matches<T(==)>(s: seq<T>, p: seq<T>, i: nat, n: nat)
    requires n <= |p| && i + n <= |s|
  {
    n == 0 || (Matches(s, p, i, n - 1) && s[i + (n - 1)] == p[n - 1])
  }

  lemma {:induction false} MatchesIsSlice<T>(s: seq<T>, p: seq<T>, i: nat, n: nat)
    requires n <= |p| && i + n <= |s|
    ensures Matches(s, p, i, n) <==> s[i..i + n] == p[..n]
  {
    if n > 0 {
      MatchesIsSlice(s, p, i, n - 1);
      assert s[i..i + n] == s[i..i + (n - 1)] + [s[i + (n - 1)]] && p[..n] == p[..n - 1] + [p[n - 1]];
    }
  }

  lemma {:induction false} AtIsSlice<T>(s: seq<T>, p: seq<T>, i: int)
    ensures At(s, p, i) <==> 0 <= i && i + |p| <= |s| && s[i..i + |p|] == p
  {
    if 0 <= i && i + |p| <= |s| {
      MatchesIsSlice(s, p, i, |p|);
      assert p[..|p|] == p;
    }
  }

  /** `r` is the first occurrence of `p` in `s` at or after `from`. */
  ghost predicate IsFirst<T>(s: seq<T>, p: seq<T>, from: nat, r: Option<nat>) {
    match r
    case None => forall i :: from <= i ==> !At(s, p, i)
    case Some(n) => from <= n && At(s, p, n) && forall i :: from <= i < n ==> !At(s, p, i)
  }

  /** First occurrence of `p` in `s`, as `str::find` and `windows(n).position` report it. */
  function Find<T(==)>(s: seq<T>, p: seq<T>): (r: Option<nat>)
    ensures IsFirst(s, p, 0, r)
  {
    FindFrom(s, p, 0)
  }

  function FindFrom<T(==)>(s: seq<T>, p: seq<T>, from: nat): (r: Option<nat>)
    requires from <= |s|
    ensures IsFirst(s, p, from, r)
    decreases |s| - from, 2
  {
    if At(s, p, from) then Some(from) else FindAfter(s, p, from)
  }

  function FindAfter<T(==)>(s: seq<T>, p: seq<T>, from: nat): (r: Option<nat>)
    requires from <= |s| && !At(s, p, from)
    ensures IsFirst(s, p, from, r)
    decreases |s| - from, 1
  {
    if from == |s| then None else FindNext(s, p, from)
  }

  function FindNext<T(==)>(s: seq<T>, p: seq<T>, from: nat): (r: Option<nat>)
    requires from < |s| && !At(s, p, from)
    ensures IsFirst(s, p, from, r)
    decreases |s| - from, 0
  {
    FindFrom(s, p, from + 1)
  }

  lemma {:induction false} AtBetween<T>(before: seq<T>, p: seq<T>, after: seq<T>)
    ensures At(before + (p + after), p, |before|)
  {
    var s := before + (p + after);
    AtIsSlice(s, p, |before|);
    assert s[|before|..|before| + |p|] == p;
  }

  ghost predicate Contains<T(!new)>(s: seq<T>, p: seq<T>) {
    exists before, after :: s == before + (p + after)
  }

  /** What is found is a part of the text, between what precedes it and what follows it. */
  lemma {:induction false} FindsContained<T(!new)>(s: seq<T>, p: seq<T>)
    ensures Find(s, p).Some? <==> Contains(s, p)
    ensures Find(s, p).Some? ==>
              var i := Find(s, p).value;
              i + |p| <= |s| && s == s[..i] + (p + s[i + |p|..])
  {
    if Find(s, p).Some? {
      var i := Find(s, p).value;
      AtIsSlice(s, p, i);
      assert s == s[..i] + (p + s[i + |p|..]);
    }
    if before, after :| s == before + (p + after) {
      AtBetween(before, p, after);
    }
  }

  lemma {:induction false} AtShift<T>(s: seq<T>, p: seq<T>, n: nat, i: nat)
    requires n <= |s|
    ensures At(s[n..], p, i) <==> At(s, p, n + i)
  {
    AtIsSlice(s[n..], p, i);
    AtIsSlice(s, p, n + i);
    if i + |p| <= |s| - n { assert s[n..][i..i + |p|] == s[n + i..n + i + |p|]; }
  }

  lemma {:induction false} AtInPrefix<T>(a: seq<T>, b: seq<T>, p: seq<T>, i: nat)
    requires i + |p| <= |a|
    ensures At(a, p, i) <==> At(a + b, p, i)
  {
    AtIsSlice(a, p, i);
    AtIsSlice(a + b, p, i);
    assert a[i..i + |p|] == (a + b)[i..i + |p|];
  }

  lemma {:induction false} FindIs<T>(s: seq<T>, p: seq<T>, i: nat)
    requires At(s, p, i) && forall j :: 0 <= j < i ==> !At(s, p, j)
    ensures Find(s, p) == Some(i)
  {
    var r := Find(s, p);
    assert r.Some?;
    if r.value < i {
      assert false;
    }
  }

  lemma {:induction false} Assoc<T>(a: seq<T>, b: seq<T>, c: seq<T>)
    ensures a + b + c == a + (b + c)
  {
  }

  /** What is found in a text is found there again when more follows. */
  lemma {:induction false} FindGrows<T>(a: seq<T>, b: seq<T>, p: seq<T>)
    requires Find(a, p).Some?
    ensures Find(a + b, p) == Find(a, p)
  {
    var i := Find(a, p).value;
    forall j | 0 <= j <= i ensures At(a + b, p, j) <==> At(a, p, j) {
      AtInPrefix(a, b, p, j);
    }
    FindIs(a + b, p, i);
  }

  lemma {:induction false} FindAtMost<T>(s: seq<T>, p: seq<T>, i: nat)
    requires At(s, p, i)
    ensures Find(s, p).Some? && Find(s, p).value <= i
  {
  }

  /** One element that occurs nowhere before is found at its place. */
  lemma {:induction false} FindAfterPrefix<T>(a: seq<T>, x: T, b: seq<T>)
    requires x !in a
    ensures Find(a + ([x] + b), [x]) == Some(|a|)
  {
    var s := a + ([x] + b);
    forall j | 0 <= j < |a| ensures !At(s, [x], j) {
      assert s[j] == a[j] && a[j] in a;
    }
    assert Matches(s, [x], |a|, 0);
    FindIs(s, [x], |a|);
  }

  lemma {:induction false} FindNowhere<T>(a: seq<T>, x: T)
    requires x !in a
    ensures Find(a, [x]) == None
  {
    forall i | 0 <= i < |a| ensures !At(a, [x], i) {
      assert a[i] in a;
    }
  }

  // ---------- Whitespace and lines ----------

  /** `char::is_whitespace`: the Unicode property White_Space. */
  predicate IsWhitespace(c: char) {
    var v := c as int;
    9 <= v <= 13 || v == 0x20 || v == 0x85 || v == 0xA0 || v == 0x1680 || 0x2000 <= v <= 0x200A ||
    v == 0x2028 || v == 0x2029 || v == 0x202F || v == 0x205F || v == 0x3000
  }

  /** Of ASCII, the blank and the controls from tab to carriage return. */
  lemma {:induction false} AsciiBlanks(c: char)
    requires c as int < 0x80
    ensures IsWhitespace(c) <==> c in " \t\n\U{0B}\U{0C}\r"
  {
  }

  predicate AllBlank(s: string) {
    forall c :: c in s ==> IsWhitespace(c)
  }

  function TrimStart(s: string): string {
    if s != [] && IsWhitespace(s[0]) then TrimStart(s[1..]) else s
  }

  function TrimEnd(s: string): string {
    if s != [] && IsWhitespace(s[|s| - 1]) then TrimEnd(s[..|s| - 1]) else s
  }

  function Trim(s: string): string {
    TrimEnd(TrimStart(s))
  }

  predicate IsTrimmed(s: string) {
    s != [] ==> !IsWhitespace(s[0]) && !IsWhitespace(s[|s| - 1])
  }

  lemma {:induction false} TrimStartHead(s: string)
    ensures TrimStart(s) != [] ==> !IsWhitespace(TrimStart(s)[0])
  {
    if s != [] && IsWhitespace(s[0]) { TrimStartHead(s[1..]); }
  }

  lemma {:induction false} TrimEndEnds(s: string)
    ensures TrimEnd(s) != [] ==> !IsWhitespace(TrimEnd(s)[|TrimEnd(s)| - 1]) && TrimEnd(s)[0] == s[0]
    ensures |TrimEnd(s)| <= |s|
  {
    if s != [] && IsWhitespace(s[|s| - 1]) { TrimEndEnds(s[..|s| - 1]); }
  }

  lemma {:induction false} TrimIsTrimmed(s: string)
    ensures IsTrimmed(Trim(s))
  {
    TrimStartHead(s);
    TrimEndEnds(TrimStart(s));
  }

  lemma {:induction false} TrimShortens(s: string)
    ensures |TrimStart(s)| <= |s| && |TrimEnd(s)| <= |s|
    ensures |Trim(s)| <= |s|
    decreases |s|
  {
    if s != [] {
      TrimShortens(s[1..]);
      TrimShortens(s[..|s| - 1]);
    }
    TrimEndEnds(TrimStart(s));
  }

  lemma {:induction false} TrimOfTrimmed(s: string)
    requires IsTrimmed(s)
    ensures TrimStart(s) == s && TrimEnd(s) == s && Trim(s) == s
  {
  }

  lemma {:induction false} TrimKeepsHead(s: string)
    requires s != "" && !IsWhitespace(s[0])
    ensures Trim(s) != ""
  {
    TrimEndKeepsHead(s);
  }

  lemma {:induction false} TrimEndKeepsHead(s: string)
    requires s != "" && !IsWhitespace(s[0])
    ensures TrimEnd(s) != ""
    decreases |s|
  {
    if IsWhitespace(s[|s| - 1]) { TrimEndKeepsHead(s[..|s| - 1]); }
  }

  function StripPrefix(s: string, p: string): Option<string> {
    if p <= s then Some(s[|p|..]) else None
  }

  lemma {:induction false} StripOwnPrefix(p: string, s: string)
    ensures StripPrefix(p + s, p) == Some(s)
  {
    assert (p + s)[|p|..] == s;
  }

  lemma {:induction false} StripOtherPrefix(s: string, p: string)
    requires s != [] && p != [] && s[0] != p[0]
    ensures !(p <= s) && StripPrefix(s, p) == None
  {
  }

  function StripCr(line: string): string {
    if line != [] && line[|line| - 1] == '\r' then line[..|line| - 1] else line
  }

  /** `str::lines`: pieces ended by a line feed, less one carriage return before it;
      an unended last piece is a line as it stands. */
  function Lines(s: string): seq<string>
    decreases |s|
  {
    if s == [] then []
    else match Find(s, "\n")
      case None => [s]
      case Some(i) => [StripCr(s[..i])] + Lines(s[i + 1..])
  }

  /** `join`. */
  function Join(parts: seq<string>, separator: string): string {
    if parts == [] then ""
    else if |parts| == 1 then parts[0]
    else parts[0] + separator + Join(parts[1..], separator)
  }

  lemma {:induction false} NoNewline(a: string)
    requires '\n' !in a && a != ""
    ensures Lines(a) == [a]
  {
    FindNowhere(a, '\n');
  }

  lemma {:induction false} FirstLine(a: string, b: string)
    requires '\n' !in a
    ensures Lines(a + ("\n" + b)) == [StripCr(a)] + Lines(b)
  {
    var s := a + ("\n" + b);
    FindAfterPrefix(a, '\n', b);
    assert s[..|a|] == a && s[|a| + 1..] == b;
  }

  lemma {:induction false} TrimEndPrefix(s: string)
    ensures TrimEnd(s) <= s
    decreases |s|
  {
    if s != [] && IsWhitespace(s[|s| - 1]) {
      TrimEndPrefix(s[..|s| - 1]);
    }
  }

  lemma {:induction false} TrimStartSuffix(s: string)
    ensures |TrimStart(s)| <= |s| && TrimStart(s) == s[|s| - |TrimStart(s)|..]
  {
    if s != [] && IsWhitespace(s[0]) {
      TrimStartSuffix(s[1..]);
    }
  }

  /** Blanks on both sides of a text that has none are what trimming removes. */
  lemma {:induction false} TrimBetween(w: string, s: string, u: string)
    requires AllBlank(w) && AllBlank(u) && IsTrimmed(s)
    ensures Trim(w + (s + u)) == s
    decreases |w|
  {
    if w == "" {
      assert w + (s + u) == s + u;
      if s == "" {
        BlankTrims(u);
        assert s + u == u;
      } else {
        assert TrimStart(s + u) == s + u;
        TrimEndBlank(s, u);
      }
    } else {
      assert w[0] in w && (w + (s + u))[1..] == w[1..] + (s + u);
      TrimBetween(w[1..], s, u);
    }
  }

  lemma {:induction false} BlankTrims(u: string)
    requires AllBlank(u)
    ensures TrimStart(u) == ""
  {
    if u != "" {
      assert u[0] in u;
      BlankTrims(u[1..]);
    }
  }

  lemma {:induction false} TrimEndBlank(s: string, u: string)
    requires AllBlank(u) && IsTrimmed(s)
    ensures TrimEnd(s + u) == s
    decreases |u|
  {
    if u == "" {
      assert s + u == s;
    } else {
      var front := u[..|u| - 1];
      assert u[|u| - 1] in u && (s + u)[..|s + u| - 1] == s + front;
      TrimEndBlank(s, front);
    }
  }

  /** Lines may end in a line feed alone or after a carriage return. */
  lemma {:induction false} LineEndings(a: string, b: string)
    requires '\n' !in a
    ensures Lines(a + ("\r\n" + b)) == [a] + Lines(b)
    ensures (a != "" ==> a[|a| - 1] != '\r') ==> Lines(a + ("\n" + b)) == [a] + Lines(b)
  {
    FirstLine(a, b);
    FirstLine(a + "\r", b);
    assert a + "\r" + ("\n" + b) == a + ("\r\n" + b) && (a + "\r")[..|a|] == a;
  }

  /** Lines joined by line feeds are the lines that were joined. */
  lemma {:induction false} LinesOfJoin(ls: seq<string>)
    requires forall l :: l in ls ==> '\n' !in l && (l != "" ==> l[|l| - 1] != '\r')
    requires ls != [] ==> ls[|ls| - 1] != ""
    ensures Lines(Join(ls, "\n")) == ls
    decreases |ls|
  {
    if |ls| == 1 {
      assert ls == [ls[0]] && ls[0] in ls;
      NoNewline(ls[0]);
    } else if |ls| > 1 {
      assert ls[0] in ls && ls == [ls[0]] + ls[1..];
      LinesOfJoin(ls[1..]);
      LineEndings(ls[0], Join(ls[1..], "\n"));
      Assoc(ls[0], "\n", Join(ls[1..], "\n"));
    }
  }

  /** `str::split` at a character. */
  function SplitOn(s: string, c: char): seq<string>
    decreases |s|
  {
    match Find(s, [c])
    case None => [s]
    case Some(i) => [s[..i]] + SplitOn(s[i + 1..], c)
  }

  /** Joining undoes splitting. */
  lemma {:induction false} JoinOfSplit(s: string, c: char)
    ensures Join(SplitOn(s, c), [c]) == s
    decreases |s|
  {
    if Find(s, [c]).Some? {
      var i := Find(s, [c]).value;
      AtIsSlice(s, [c], i);
      JoinOfSplit(s[i + 1..], c);
      assert SplitOn(s, c)[1..] == SplitOn(s[i + 1..], c);
      assert s == s[..i] + [c] + s[i + 1..];
    }
  }

  /** Splitting undoes joining. */
  lemma {:induction false} SplitOfJoin(parts: seq<string>, c: char)
    requires parts != [] && forall p :: p in parts ==> c !in p
    ensures SplitOn(Join(parts, [c]), c) == parts
    decreases |parts|
  {
    assert parts[0] in parts;
    if |parts| == 1 {
      FindNowhere(parts[0], c);
    } else {
      var more := Join(parts[1..], [c]);
      Assoc(parts[0], [c], more);
      FindAfterPrefix(parts[0], c, more);
      var s := parts[0] + ([c] + more);
      assert s[..|parts[0]|] == parts[0] && s[|parts[0]| + 1..] == more;
      SplitOfJoin(parts[1..], c);
      assert parts == [parts[0]] + parts[1..];
    }
  }

  // ---------- Case ----------

  function LowerChar(c: char): char {
    if 'A' <= c <= 'Z' then (c as int + 32) as char else c
  }

  /** `to_ascii_lowercase`. */
  function Lower(s: string): (r: string)
    ensures |r| == |s| && forall i :: 0 <= i < |s| ==> r[i] == LowerChar(s[i])
  {
    seq(|s|, i requires 0 <= i < |s| => LowerChar(s[i]))
  }

  /** The letters of the alphabet lose their case, and nothing else changes. */
  lemma {:induction false} LowerLetters(n: nat, c: char)
    requires n < 26
    ensures LowerChar('A' + n as char) == 'a' + n as char
    ensures (c < 'A' || 'Z' < c) ==> LowerChar(c) == c
  {
  }

  // ---------- Hexadecimal digits ----------

  function HexDigit(n: int): char
    requires 0 <= n < 16
  {
    if n < 10 then '0' + n as char else 'a' + (n - 10) as char
  }

  /** `char::to_digit(16)`: either case. */
  function HexValue(c: char): (r: Option<int>)
    ensures r.Some? ==> 0 <= r.value < 16
  {
    if '0' <= c <= '9' then Some(c as int - '0' as int)
    else if 'a' <= c <= 'f' then Some(c as int - 'a' as int + 10)
    else if 'A' <= c <= 'F' then Some(c as int - 'A' as int + 10)
    else None
  }

  lemma {:induction false} HexDigitRoundTrip(n: int)
    requires 0 <= n < 16
    ensures HexValue(HexDigit(n)) == Some(n)
  {
  }

  /** The sixteen digits, written in lower case and read in either. */
  lemma {:induction false} SixteenDigits(n: int, c: char)
    requires 0 <= n < 16
    ensures HexDigit(n) == "0123456789abcdef"[n]
    ensures HexValue(c) == Some(n) <==> c == "0123456789abcdef"[n] || c == "0123456789ABCDEF"[n]
  {
  }
}
