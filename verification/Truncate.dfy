/** Model of `truncate_output` in `runtime/src/bash.rs`. */
module Truncate {
  import opened Utf8

  const MAX_OUTPUT_BYTES := 16_384

  const MARKER := "\n\n[output truncated — exceeded 16384 bytes]"

  /** The backward search for a character boundary: it ends within three steps at
      the last boundary not above `limit`, the end of the whole characters. */
  method FloorBoundary(text: string, limit: nat) returns (end: nat)
    requires limit <= |Encode(text)|
    ensures end == |Encode(text[..WholeChars(text, limit)])|
    ensures end <= limit <= end + 3
  {
    var bytes := Encode(text);
    end := limit;
    ghost var floor := |Encode(text[..WholeChars(text, limit)])|;
    WholeIsPrefix(text, limit);
    FloorIsBoundary(text, limit);
    while end > 0 && !IsCharBoundary(bytes, end)
      invariant floor <= end <= limit
      decreases end
    {
      end := end - 1;
    }
    BoundaryIffWhole(text, end);
    NoBoundaryBetween(text, end, limit);
    FloorIsNear(text, limit);
  }

  lemma {:induction false} FloorIsBoundary(text: string, limit: nat)
    requires limit <= |Encode(text)|
    ensures IsCharBoundary(Encode(text), |Encode(text[..WholeChars(text, limit)])|)
  {
    WholeIsPrefix(text, limit);
    var floor := |Encode(text[..WholeChars(text, limit)])|;
    WholeCharsAtEnd(text, WholeChars(text, limit));
    BoundaryIffWhole(text, floor);
  }

  lemma {:induction false} WholeCharsAtEnd(text: string, k: nat)
    requires k <= |text|
    ensures WholeChars(text, |Encode(text[..k])|) == k
  {
    if k > 0 {
      WholeCharsAtEnd(text[1..], k - 1);
      WholeStep(text, k - 1);
    } else {
      assert text[..0] == [];
    }
  }

  lemma {:induction false} WholeCharsMonotone(text: string, m: nat, n: nat)
    requires m <= n
    ensures WholeChars(text, m) <= WholeChars(text, n)
  {
    if text != [] && |EncodeChar(text[0])| <= m {
      WholeCharsMonotone(text[1..], m - |EncodeChar(text[0])|, n - |EncodeChar(text[0])|);
    }
  }

  /** A boundary at or above the floor of `limit` and not above `limit` is that floor. */
  lemma {:induction false} NoBoundaryBetween(text: string, end: nat, limit: nat)
    requires end <= limit <= |Encode(text)|
    requires |Encode(text[..WholeChars(text, limit)])| <= end
    ensures WholeChars(text, end) == WholeChars(text, limit)
  {
    WholeCharsAtEnd(text, WholeChars(text, limit));
    WholeCharsMonotone(text, |Encode(text[..WholeChars(text, limit)])|, end);
    WholeCharsMonotone(text, end, limit);
  }

  lemma {:induction false} FloorIsNear(text: string, limit: nat)
    requires limit <= |Encode(text)|
    ensures limit <= |Encode(text[..WholeChars(text, limit)])| + 3
  {
    WholeCharsIsMaximal(text, limit);
    if WholeChars(text, limit) == |text| { assert text[..|text|] == text; }
  }

  /** As many characters as have 16384 bytes, and not one more, before a text that says so. */
  ghost predicate TruncatedAt(s: string, k: nat, r: string) {
    && k < |s| && |Encode(s[..k])| <= 16384 < |Encode(s[..k + 1])|
    && r == s[..k] + "\n\n[output truncated — exceeded 16384 bytes]"
  }

  lemma {:induction false} CutWithin(s: string)
    requires |Encode(s)| > MAX_OUTPUT_BYTES
    ensures TruncatedAt(s, WholeChars(s, MAX_OUTPUT_BYTES), s[..WholeChars(s, MAX_OUTPUT_BYTES)] + MARKER)
  {
    assert s[..|s|] == s;
    WholeCharsIsMaximal(s, MAX_OUTPUT_BYTES);
  }

  /** Output within the limit is returned as it is; longer output becomes its whole
      characters within the limit, the same that `decode_complete_utf8` keeps of
      the first 16384 bytes, and the marker. */
  method TruncateOutput(s: string) returns (r: string)
    ensures |Encode(s)| <= MAX_OUTPUT_BYTES ==> r == s
    ensures |Encode(s)| > MAX_OUTPUT_BYTES ==>
              && r == s[..WholeChars(s, MAX_OUTPUT_BYTES)] + MARKER
              && r == DecodeComplete(Encode(s)[..MAX_OUTPUT_BYTES]) + MARKER
    ensures |Encode(s)| > 16384 ==> exists k: nat :: TruncatedAt(s, k, r)
  {
    if |Encode(s)| <= MAX_OUTPUT_BYTES {
      return s;
    }
    var end := FloorBoundary(s, MAX_OUTPUT_BYTES);
    WholeIsPrefix(s, MAX_OUTPUT_BYTES);
    CutWithin(s);
    DecodeCompleteOfCut(s, MAX_OUTPUT_BYTES);
    FromUtf8OfEncode(s[..WholeChars(s, MAX_OUTPUT_BYTES)]);
    var prefix := FromUtf8(Encode(s)[..end]);
    assert Encode(s)[..end] == Encode(s[..WholeChars(s, MAX_OUTPUT_BYTES)]);
    r := prefix.value + MARKER;
  }
}
