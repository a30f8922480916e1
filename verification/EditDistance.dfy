/** Model of `levenshtein_distance` in `commands/src/lib.rs` and of
    `simple_edit_distance` and `suggest_field` in `runtime/src/config_validate.rs`. */
module EditDistance {
  import opened Text
  import opened Utf8

  function Min(a: nat, b: nat): nat {
    if a <= b then a else b
  }

  function Cost(x: char, y: char): nat {
    if x == y then 0 else 1
  }

  /** The recursive definition: the distance of the first `i` characters of `a` to
      the first `j` characters of `b`. */
  function Dist(a: string, b: string, i: nat, j: nat): nat
    requires i <= |a| && j <= |b|
    decreases i + j, 2
  {
    if i == 0 then j else if j == 0 then i else Interior(a, b, i, j)
  }

  /** An entry with neighbours; `DistStep` opens it, so that proofs see one entry at a time. */
  function Interior(a: string, b: string, i: nat, j: nat): nat
    requires 0 < i <= |a| && 0 < j <= |b|
    decreases i + j, 1
  {
    LastEdit(a, b, i, j)
  }

  /** The cheapest way to end: insert, delete, or match the last characters. */
  function LastEdit(a: string, b: string, i: nat, j: nat): nat
    requires 0 < i <= |a| && 0 < j <= |b|
    decreases i + j, 0
  {
    Min(Min(Dist(a, b, i, j - 1) + 1, Dist(a, b, i - 1, j) + 1),
        Dist(a, b, i - 1, j - 1) + Cost(a[i - 1], b[j - 1]))
  }

  lemma {:induction false} DistStep(a: string, b: string, i: nat, j: nat)
    requires 0 < i <= |a| && 0 < j <= |b|
    ensures Dist(a, b, i, j) ==
            Min(Min(Dist(a, b, i, j - 1) + 1, Dist(a, b, i - 1, j) + 1),
                Dist(a, b, i - 1, j - 1) + Cost(a[i - 1], b[j - 1]))
  {
    assert Dist(a, b, i, j) == Interior(a, b, i, j);
    assert Interior(a, b, i, j) == LastEdit(a, b, i, j);
  }

  function Lev(a: string, b: string): nat {
    Dist(a, b, |a|, |b|)
  }

  // ---------- The two-row computation ----------

  /** One row of the table: the distances of a prefix of `a` to every prefix of `b`. */
  ghost predicate IsRow(row: seq<nat>, a: string, b: string, i: nat)
    requires i <= |a|
  {
    |row| == |b| + 1 && forall j :: 0 <= j <= |b| ==> row[j] == Dist(a, b, i, j)
  }

  /** The loop shared by both functions: each row is computed from the previous one. */
  method TwoRows(left: string, right: string) returns (d: nat)
    ensures d == Lev(left, right)
  {
    var previous := new nat[|right| + 1](j => j);
    var current := new nat[|right| + 1](_ => 0);
    for i := 0 to |left|
      invariant IsRow(previous[..], left, right, i)
    {
      current[0] := i + 1;
      for j := 0 to |right|
        invariant forall k :: 0 <= k <= j ==> current[k] == Dist(left, right, i + 1, k)
        invariant IsRow(previous[..], left, right, i)
      {
        assert previous[..][j] == previous[j] && previous[..][j + 1] == previous[j + 1];
        DistStep(left, right, i + 1, j + 1);
        current[j + 1] := Min(Min(current[j] + 1, previous[j + 1] + 1), previous[j] + Cost(left[i], right[j]));
      }
      forall k | 0 <= k < previous.Length { previous[k] := current[k]; }
      assert previous[..] == current[..];
    }
    d := previous[|right|];
  }

  /** `levenshtein_distance`, with its three early returns. */
  method LevenshteinDistance(left: string, right: string) returns (d: nat)
    ensures d == Lev(left, right)
  {
    if left == right {
      SelfDistance(left);
      return 0;
    }
    if left == [] {
      return |right|;
    }
    if right == [] {
      return |left|;
    }
    d := TwoRows(left, right);
  }

  /** `simple_edit_distance`: the same rows, but byte lengths when a side is empty.
      It is the edit distance exactly when both texts are non-empty or all ASCII. */
  method SimpleEditDistance(left: string, right: string) returns (d: nat)
    ensures d == Simple(left, right)
    ensures d == Lev(left, right) <==> (left != [] && right != []) || IsAscii(left + right)
  {
    ByteLenIsCharCount(left);
    ByteLenIsCharCount(right);
    if left == [] {
      assert left + right == right;
      return |Encode(right)|;
    }
    if right == [] {
      assert left + right == left;
      return |Encode(left)|;
    }
    d := TwoRows(left, right);
  }

  function Simple(left: string, right: string): nat {
    if left == [] then |Encode(right)|
    else if right == [] then |Encode(left)|
    else Lev(left, right)
  }

  /** One two-byte character is one edit from the empty text, and counted as two. */
  lemma {:induction false} CountsBytes()
    ensures Lev("", "\U{E9}") == 1 && Simple("", "\U{E9}") == 2
  {
    EncodeStep("\U{E9}");
    assert Encode("\U{E9}"[1..]) == [];
  }

  // ---------- A metric ----------

  lemma {:induction false} DistZeroIffEqual(a: string, b: string, i: nat, j: nat)
    requires i <= |a| && j <= |b|
    ensures Dist(a, b, i, j) == 0 <==> a[..i] == b[..j]
    decreases i + j
  {
    if i > 0 && j > 0 {
      DistStep(a, b, i, j);
      DistZeroIffEqual(a, b, i - 1, j - 1);
      assert a[..i] == a[..i - 1] + [a[i - 1]] && b[..j] == b[..j - 1] + [b[j - 1]];
      if a[..i] == b[..j] {
        assert a[..i][..i - 1] == b[..j][..j - 1] && a[..i][i - 1] == b[..j][j - 1];
      }
    }
  }

  lemma {:induction false} DistSymmetric(a: string, b: string, i: nat, j: nat)
    requires i <= |a| && j <= |b|
    ensures Dist(a, b, i, j) == Dist(b, a, j, i)
    decreases i + j
  {
    if i > 0 && j > 0 {
      DistStep(a, b, i, j);
      DistStep(b, a, j, i);
      DistSymmetric(a, b, i, j - 1);
      DistSymmetric(a, b, i - 1, j);
      DistSymmetric(a, b, i - 1, j - 1);
    }
  }

  lemma {:induction false} DistBounds(a: string, b: string, i: nat, j: nat)
    requires i <= |a| && j <= |b|
    ensures Dist(a, b, i, j) <= i + j
    ensures i <= j + Dist(a, b, i, j) && j <= i + Dist(a, b, i, j)
    decreases i + j
  {
    if i > 0 && j > 0 {
      DistStep(a, b, i, j);
      DistBounds(a, b, i, j - 1);
      DistBounds(a, b, i - 1, j);
      DistBounds(a, b, i - 1, j - 1);
    }
  }

  lemma {:induction false} DistTriangle(a: string, b: string, c: string, i: nat, j: nat, k: nat)
    requires i <= |a| && j <= |b| && k <= |c|
    ensures Dist(a, c, i, k) <= Dist(a, b, i, j) + Dist(b, c, j, k)
    decreases i + j + k
  {
    DistBounds(a, b, i, j);
    DistBounds(b, c, j, k);
    DistBounds(a, c, i, k);
    if i > 0 && j > 0 && k > 0 {
      DistStep(a, b, i, j);
      DistStep(b, c, j, k);
      DistStep(a, c, i, k);
      var ab, bc := Dist(a, b, i, j), Dist(b, c, j, k);
      if bc == Dist(b, c, j, k - 1) + 1 {
        DistTriangle(a, b, c, i, j, k - 1);
      } else if ab == Dist(a, b, i - 1, j) + 1 {
        DistTriangle(a, b, c, i - 1, j, k);
      } else if ab == Dist(a, b, i, j - 1) + 1 && bc == Dist(b, c, j - 1, k) + 1 {
        DistTriangle(a, b, c, i, j - 1, k);
      } else if ab == Dist(a, b, i, j - 1) + 1 {
        DistTriangle(a, b, c, i, j - 1, k - 1);
      } else if bc == Dist(b, c, j - 1, k) + 1 {
        DistTriangle(a, b, c, i - 1, j - 1, k);
      } else {
        DistTriangle(a, b, c, i - 1, j - 1, k - 1);
      }
    }
  }

  lemma {:induction false} SelfDistance(a: string)
    ensures Lev(a, a) == 0
  {
    DistZeroIffEqual(a, a, |a|, |a|);
  }

  /** The distance is a metric on texts. */
  lemma {:induction false} Metric(a: string, b: string, c: string)
    ensures Lev(a, b) == 0 <==> a == b
    ensures Lev(a, b) == Lev(b, a)
    ensures Lev(a, c) <= Lev(a, b) + Lev(b, c)
  {
    DistZeroIffEqual(a, b, |a|, |b|);
    assert a[..|a|] == a && b[..|b|] == b;
    DistSymmetric(a, b, |a|, |b|);
    DistTriangle(a, b, c, |a|, |b|, |c|);
  }

  // ---------- The least number of edits ----------

  datatype Edit = Insert(at: nat, c: char) | Delete(at: nat) | Substitute(at: nat, c: char)

  /** The text after one edit; an edit that points outside changes nothing. */
  function Apply(e: Edit, s: string): string {
    match e
    case Insert(i, c) => if i <= |s| then s[..i] + [c] + s[i..] else s
    case Delete(i) => if i < |s| then s[..i] + s[i + 1..] else s
    case Substitute(i, c) => if i < |s| then s[..i] + [c] + s[i + 1..] else s
  }

  /** `n` edits, one after the other, lead from `a` to `b`. */
  ghost predicate Reachable(a: string, b: string, n: nat)
    decreases n, 2
  {
    if n == 0 then a == b else Onward(a, b, n)
  }

  ghost predicate Onward(a: string, b: string, n: nat)
    requires n > 0
    decreases n, 1
  {
    AfterOneEdit(a, b, n)
  }

  ghost predicate AfterOneEdit(a: string, b: string, n: nat)
    requires n > 0
    decreases n, 0
  {
    exists e :: Reachable(Apply(e, a), b, n - 1)
  }

  lemma {:induction false} FirstEdit(e: Edit, a: string, b: string, n: nat)
    requires Reachable(Apply(e, a), b, n)
    ensures Reachable(a, b, n + 1)
  {
    assert AfterOneEdit(a, b, n + 1);
    assert Onward(a, b, n + 1);
  }

  lemma {:induction false} SplitEdit(a: string, b: string, n: nat) returns (e: Edit)
    requires n > 0 && Reachable(a, b, n)
    ensures Reachable(Apply(e, a), b, n - 1)
  {
    assert Onward(a, b, n);
    assert AfterOneEdit(a, b, n);
    e :| Reachable(Apply(e, a), b, n - 1);
  }

  lemma {:induction false} SliceFront(s: string, i: nat, m: nat, n: nat)
    requires i + m <= |s| && n <= m
    ensures s[i..i + n] == s[i..i + m][..n]
  {
  }

  /** Texts whose rests after `i` and `j` characters agree get no further apart. */
  lemma {:induction false} CommonSuffix(a: string, b: string, i: nat, j: nat, w: string)
    requires i + |w| <= |a| && j + |w| <= |b|
    requires a[i..i + |w|] == w && b[j..j + |w|] == w
    ensures Dist(a, b, i + |w|, j + |w|) <= Dist(a, b, i, j)
    decreases |w|
  {
    if w != [] {
      var n := |w| - 1;
      SliceFront(a, i, |w|, n);
      SliceFront(b, j, |w|, n);
      CommonSuffix(a, b, i, j, w[..n]);
      assert a[i + n] == w[n] && b[j + n] == w[n];
      DistStep(a, b, i + |w|, j + |w|);
    }
  }

  /** One edit moves a text by at most one. */
  lemma {:induction false} OneEdit(e: Edit, s: string)
    ensures Lev(s, Apply(e, s)) <= 1
  {
    var t := Apply(e, s);
    SelfDistance(s);
    match e
    case Insert(i, c) =>
      if i <= |s| {
        SamePrefix(s, t, i);
        CommonSuffix(s, t, i, i + 1, s[i..]);
      }
    case Delete(i) =>
      if i < |s| {
        SamePrefix(s, t, i);
        CommonSuffix(s, t, i + 1, i, s[i + 1..]);
      }
    case Substitute(i, c) =>
      if i < |s| {
        SamePrefix(s, t, i);
        CommonSuffix(s, t, i + 1, i + 1, s[i + 1..]);
      }
  }

  lemma {:induction false} SamePrefix(s: string, t: string, i: nat)
    requires i <= |s| && i <= |t| && forall k :: 0 <= k < i ==> s[k] == t[k]
    ensures Dist(s, t, i, i) == 0
    ensures i < |t| ==> Dist(s, t, i, i + 1) <= 1
    ensures i < |s| ==> Dist(s, t, i + 1, i) <= 1
    ensures i < |s| && i < |t| ==> Dist(s, t, i + 1, i + 1) <= 1
  {
    DistZeroIffEqual(s, t, i, i);
    assert s[..i] == t[..i];
    if i < |t| && i > 0 { DistStep(s, t, i, i + 1); }
    if i < |s| && i > 0 { DistStep(s, t, i + 1, i); }
    if i < |s| && i < |t| { DistStep(s, t, i + 1, i + 1); }
  }

  /** No fewer edits than the distance lead from `a` to `b`. */
  lemma {:induction false} NoFewerEdits(a: string, b: string, n: nat)
    requires Reachable(a, b, n)
    ensures Lev(a, b) <= n
    decreases n
  {
    if n == 0 {
      SelfDistance(a);
    } else {
      var e := SplitEdit(a, b, n);
      NoFewerEdits(Apply(e, a), b, n - 1);
      OneEdit(e, a);
      Metric(a, Apply(e, a), b);
    }
  }

  lemma {:induction false} FinalEdit(a: string, b: string, n: nat, f: Edit)
    requires Reachable(a, b, n)
    ensures Reachable(a, Apply(f, b), n + 1)
    decreases n
  {
    if n == 0 {
      FirstEdit(f, a, Apply(f, b), 0);
    } else {
      var e := SplitEdit(a, b, n);
      FinalEdit(Apply(e, a), b, n - 1, f);
      FirstEdit(e, a, Apply(f, b), n);
    }
  }

  lemma {:induction false} LiftEdit(e: Edit, a: string, x: char) returns (f: Edit)
    ensures Apply(f, a + [x]) == Apply(e, a) + [x]
  {
    f := if Apply(e, a) == a then Substitute(|a| + 1, x) else e;
  }

  /** The same edits work in front of a further last character. */
  lemma {:induction false} SameLast(a: string, b: string, x: char, n: nat)
    requires Reachable(a, b, n)
    ensures Reachable(a + [x], b + [x], n)
    decreases n
  {
    if n > 0 {
      var e := SplitEdit(a, b, n);
      SameLast(Apply(e, a), b, x, n - 1);
      var f := LiftEdit(e, a, x);
      FirstEdit(f, a + [x], b + [x], n - 1);
    }
  }

  lemma {:induction false} InsertLast(a: string, b: string, y: char, n: nat)
    requires Reachable(a, b, n)
    ensures Reachable(a, b + [y], n + 1)
  {
    FinalEdit(a, b, n, Insert(|b|, y));
    assert Apply(Insert(|b|, y), b) == b + [y];
  }

  lemma {:induction false} DeleteLast(a: string, b: string, x: char, n: nat)
    requires Reachable(a, b, n)
    ensures Reachable(a + [x], b, n + 1)
  {
    assert Apply(Delete(|a|), a + [x]) == a;
    FirstEdit(Delete(|a|), a + [x], b, n);
  }

  lemma {:induction false} MatchLast(a: string, b: string, x: char, y: char, n: nat)
    requires Reachable(a, b, n)
    ensures Reachable(a + [x], b + [y], n + Cost(x, y))
  {
    SameLast(a, b, x, n);
    if x != y {
      FinalEdit(a + [x], b + [x], n, Substitute(|b|, y));
      assert Apply(Substitute(|b|, y), b + [x]) == b + [y];
    }
  }

  lemma {:induction false} TakeLast(s: string, i: nat)
    requires 0 < i <= |s|
    ensures s[..i] == s[..i - 1] + [s[i - 1]]
  {
  }

  lemma {:induction false} PrefixReachable(a: string, b: string, i: nat, j: nat)
    requires i <= |a| && j <= |b|
    ensures Reachable(a[..i], b[..j], Dist(a, b, i, j))
    decreases i + j
  {
    if i > 0 { TakeLast(a, i); }
    if j > 0 { TakeLast(b, j); }
    if i > 0 && j > 0 { DistStep(a, b, i, j); }
    if i == 0 && j == 0 {
    } else if i == 0 || (j > 0 && Dist(a, b, i, j) == Dist(a, b, i, j - 1) + 1) {
      PrefixReachable(a, b, i, j - 1);
      InsertLast(a[..i], b[..j - 1], b[j - 1], Dist(a, b, i, j - 1));
    } else if j == 0 || Dist(a, b, i, j) == Dist(a, b, i - 1, j) + 1 {
      PrefixReachable(a, b, i - 1, j);
      DeleteLast(a[..i - 1], b[..j], a[i - 1], Dist(a, b, i - 1, j));
    } else {
      PrefixReachable(a, b, i - 1, j - 1);
      MatchLast(a[..i - 1], b[..j - 1], a[i - 1], b[j - 1], Dist(a, b, i - 1, j - 1));
    }
  }

  /** The distance is the least number of single-character edits from `a` to `b`. */
  lemma {:induction false} LeastEdits(a: string, b: string)
    ensures Reachable(a, b, Lev(a, b))
    ensures forall n: nat :: Reachable(a, b, n) ==> n >= Lev(a, b)
  {
    PrefixReachable(a, b, |a|, |b|);
    assert a[..|a|] == a && b[..|b|] == b;
    forall n: nat | Reachable(a, b, n) ensures n >= Lev(a, b) {
      NoFewerEdits(a, b, n);
    }
  }

  // ---------- Suggestions for an unknown field ----------

  function FieldDistance(input: string, candidate: string): nat {
    Simple(Lower(input), Lower(candidate))
  }

  /** `suggest_field`, as the index of the suggestion: the first of the nearest
      candidates, and nothing only when all are more than three edits away. */
  function SuggestField(input: string, candidates: seq<string>): (r: Option<nat>)
    ensures r.None? <==> forall i :: 0 <= i < |candidates| ==> FieldDistance(input, candidates[i]) > 3
    ensures r.Some? ==> r.value < |candidates| && FieldDistance(input, candidates[r.value]) <= 3
    ensures r.Some? ==> forall i :: 0 <= i < |candidates| ==>
              FieldDistance(input, candidates[r.value]) <= FieldDistance(input, candidates[i])
    ensures r.Some? ==> forall i :: 0 <= i < r.value ==>
              FieldDistance(input, candidates[r.value]) < FieldDistance(input, candidates[i])
  {
    if candidates == [] then None
    else
      var d := FieldDistance(input, candidates[0]);
      var rest := SuggestField(input, candidates[1..]);
      assert forall i :: 0 < i < |candidates| ==> candidates[i] == candidates[1..][i - 1];
      match rest
      case None => if d <= 3 then Some(0) else None
      case Some(k) => if d <= FieldDistance(input, candidates[1..][k]) then Some(0) else Some(k + 1)
  }

  /** A field spelled as a candidate up to ASCII case is answered with such a candidate. */
  lemma {:induction false} ExactFieldIsSuggested(input: string, candidates: seq<string>, i: nat)
    requires i < |candidates| && Lower(candidates[i]) == Lower(input)
    ensures SuggestField(input, candidates).Some?
    ensures Lower(candidates[SuggestField(input, candidates).value]) == Lower(input)
  {
    SimpleZeroIffEqual(Lower(input), Lower(candidates[i]));
    assert FieldDistance(input, candidates[i]) == 0;
    SimpleZeroIffEqual(Lower(input), Lower(candidates[SuggestField(input, candidates).value]));
  }

  /** Fields are compared without regard to case, by the least number of edits; but an empty
      one by the bytes of the other. */
  lemma {:induction false} FieldDistanceExactly(input: string, candidate: string)
    ensures (input != "" && candidate != "") || IsAscii(input + candidate) ==>
              && Reachable(Lower(input), Lower(candidate), FieldDistance(input, candidate))
              && forall n: nat :: Reachable(Lower(input), Lower(candidate), n) ==> n >= FieldDistance(input, candidate)
    ensures input == "" ==> FieldDistance(input, candidate) == |Encode(candidate)|
    ensures candidate == "" ==> FieldDistance(input, candidate) == |Encode(input)|
  {
    var a, b := Lower(input), Lower(candidate);
    LeastEdits(a, b);
    LowerBytes(input);
    LowerBytes(candidate);
    if input == "" || candidate == "" {
      ByteLenIsCharCount(input);
      ByteLenIsCharCount(candidate);
      assert Lower("") == "" && Encode("") == [];
      assert input == "" ==> input + candidate == candidate;
      assert candidate == "" ==> input + candidate == input;
    }
  }

  lemma {:induction false} LowerBytes(s: string)
    ensures |Encode(Lower(s))| == |Encode(s)|
  {
    if s != "" {
      EncodeStep(s);
      EncodeStep(Lower(s));
      assert Lower(s)[1..] == Lower(s[1..]);
      LowerBytes(s[1..]);
    }
  }

  lemma {:induction false} SimpleZeroIffEqual(a: string, b: string)
    ensures Simple(a, b) == 0 <==> a == b
  {
    Metric(a, b, b);
  }
}
