/** The order of Rust's `String` and of `BTreeMap<String, _>` keys, and the
    sorted key lists that iterating such a map visits. */
module Ordering {

  /** Lexicographic order on code points, which is the byte order of the UTF-8 texts. */
  predicate LessEq(a: string, b: string) {
    a == [] || (b != [] && (a[0] < b[0] || (a[0] == b[0] && LessEq(a[1..], b[1..]))))
  }

  predicate Less(a: string, b: string) {
    a != b && LessEq(a, b)
  }

  lemma {:induction false} LessEqTotal(a: string, b: string)
    ensures LessEq(a, b) || LessEq(b, a)
  {
    if a != [] && b != [] && a[0] == b[0] {
      LessEqTotal(a[1..], b[1..]);
    }
  }

  lemma {:induction false} LessEqTransitive(a: string, b: string, c: string)
    requires LessEq(a, b) && LessEq(b, c)
    ensures LessEq(a, c)
  {
    if a != [] && a[0] == b[0] && b[0] == c[0] {
      LessEqTransitive(a[1..], b[1..], c[1..]);
    }
  }

  /** The keys in iteration order: strictly increasing, hence without repetition. */
  predicate Increasing(ks: seq<string>) {
    forall i, j :: 0 <= i < j < |ks| ==> Less(ks[i], ks[j])
  }

  predicate IsLeast(least: string, ks: set<string>) {
    least in ks && forall k :: k in ks ==> LessEq(least, k)
  }

  lemma {:induction false} LeastExists(ks: set<string>)
    requires ks != {}
    ensures exists least :: IsLeast(least, ks)
    decreases |ks|
  {
    var some :| some in ks;
    if ks == {some} {
      LessEqTotal(some, some);
      assert IsLeast(some, ks);
    } else {
      var others := ks - {some};
      assert ks == others + {some};
      LeastExists(others);
      var l :| IsLeast(l, others);
      LessEqTotal(l, some);
      LessEqTotal(some, some);
      var least := if LessEq(l, some) then l else some;
      forall k | k in ks ensures LessEq(least, k) {
        if k != some { LessEqTransitive(least, l, k); }
      }
      assert IsLeast(least, ks);
    }
  }

  /** The keys of a map in the order a `BTreeMap` iterates them. */
  ghost function SortedKeys(ks: set<string>): (r: seq<string>)
    ensures Increasing(r)
    ensures forall k :: k in r <==> k in ks
    decreases |ks|
  {
    if ks == {} then []
    else
      LeastExists(ks);
      var least :| IsLeast(least, ks);
      var rest := SortedKeys(ks - {least});
      assert forall k :: k in rest ==> Less(least, k);
      [least] + rest
  }

  // ---------- Sorting by a text key ----------

  /** Puts `x` after all elements whose key is not greater, as a stable sort does. */
  function Insert<T>(x: T, xs: seq<T>, key: T -> string): seq<T> {
    if xs == [] || Less(key(x), key(xs[0])) then [x] + xs else [xs[0]] + Insert(x, xs[1..], key)
  }

  /** `sort_by` on a text key: stable, from the first element on. */
  function SortBy<T>(xs: seq<T>, key: T -> string): seq<T> {
    if xs == [] then [] else Insert(xs[|xs| - 1], SortBy(xs[..|xs| - 1], key), key)
  }

  ghost predicate Sorted<T>(xs: seq<T>, key: T -> string) {
    forall i, j :: 0 <= i < j < |xs| ==> LessEq(key(xs[i]), key(xs[j]))
  }

  /** `xs` and `ys` hold the same elements, each as often. */
  ghost predicate SameElements<T>(xs: seq<T>, ys: seq<T>) {
    multiset(xs) == multiset(ys)
  }

  lemma {:induction false} InsertSorts<T>(x: T, xs: seq<T>, key: T -> string)
    requires Sorted(xs, key)
    ensures Sorted(Insert(x, xs, key), key)
    ensures multiset(Insert(x, xs, key)) == multiset{x} + multiset(xs)
  {
    if xs == [] {
    } else if Less(key(x), key(xs[0])) {
      LessEqTotal(key(xs[0]), key(xs[0]));
      forall j | 0 <= j < |xs| ensures LessEq(key(x), key(xs[j])) {
        LessEqTransitive(key(x), key(xs[0]), key(xs[j]));
      }
    } else {
      LessEqTotal(key(x), key(xs[0]));
      var rest := Insert(x, xs[1..], key);
      InsertSorts(x, xs[1..], key);
      assert xs == [xs[0]] + xs[1..];
      forall j | 0 <= j < |rest| ensures LessEq(key(xs[0]), key(rest[j])) {
        assert rest[j] in multiset(rest);
        assert rest[j] == x || rest[j] in multiset(xs[1..]);
        if rest[j] != x {
          assert rest[j] in xs[1..];
          var k :| 0 <= k < |xs[1..]| && xs[1..][k] == rest[j];
          assert xs[k + 1] == rest[j];
        }
      }
    }
  }

  lemma {:induction false} SortBySorts<T>(xs: seq<T>, key: T -> string)
    ensures Sorted(SortBy(xs, key), key) && SameElements(xs, SortBy(xs, key))
  {
    if xs != [] {
      var last := |xs| - 1;
      SortBySorts(xs[..last], key);
      InsertSorts(xs[last], SortBy(xs[..last], key), key);
      assert xs == xs[..last] + [xs[last]];
    }
  }

  /** The elements with one key, in the order in which they stand. */
  function WithKey<T>(xs: seq<T>, key: T -> string, k: string): seq<T> {
    if xs == [] then []
    else WithKey(xs[..|xs| - 1], key, k) + (if key(xs[|xs| - 1]) == k then [xs[|xs| - 1]] else [])
  }

  lemma {:induction false} WithKeyConcat<T>(xs: seq<T>, ys: seq<T>, key: T -> string, k: string)
    ensures WithKey(xs + ys, key, k) == WithKey(xs, key, k) + WithKey(ys, key, k)
    decreases |ys|
  {
    if ys == [] {
      assert xs + ys == xs;
    } else {
      assert (xs + ys)[..|xs + ys| - 1] == xs + ys[..|ys| - 1];
      WithKeyConcat(xs, ys[..|ys| - 1], key, k);
    }
  }

  lemma {:induction false} WithKeyNone<T>(xs: seq<T>, key: T -> string, k: string)
    requires forall x :: x in xs ==> key(x) != k
    ensures WithKey(xs, key, k) == []
  {
    if xs != [] {
      assert xs[|xs| - 1] in xs;
      WithKeyNone(xs[..|xs| - 1], key, k);
    }
  }

  lemma {:induction false} InsertIsLast<T>(x: T, xs: seq<T>, key: T -> string, k: string)
    requires Sorted(xs, key)
    ensures WithKey(Insert(x, xs, key), key, k) == WithKey(xs, key, k) + WithKey([x], key, k)
  {
    if xs == [] {
      assert WithKey(xs, key, k) == [];
    } else if Less(key(x), key(xs[0])) {
      WithKeyConcat([x], xs, key, k);
      NoneLater(x, xs, key, k);
    } else {
      InsertIsLast(x, xs[1..], key, k);
      WithKeyConcat([xs[0]], Insert(x, xs[1..], key), key, k);
      WithKeyConcat([xs[0]], xs[1..], key, k);
      assert [xs[0]] + xs[1..] == xs;
    }
  }

  lemma {:induction false} NoneLater<T>(x: T, xs: seq<T>, key: T -> string, k: string)
    requires Sorted(xs, key) && xs != [] && Less(key(x), key(xs[0]))
    ensures WithKey([x], key, k) == [] || WithKey(xs, key, k) == []
  {
    if key(x) == k {
      forall y | y in xs ensures key(y) != k {
        Later(x, xs, y, key);
      }
      WithKeyNone(xs, key, k);
    } else {
      WithKeyNone([x], key, k);
    }
  }

  lemma {:induction false} Later<T>(x: T, xs: seq<T>, y: T, key: T -> string)
    requires Sorted(xs, key) && y in xs && Less(key(x), key(xs[0]))
    ensures key(y) != key(x)
  {
    var j :| 0 <= j < |xs| && xs[j] == y;
    if key(y) == key(x) {
      LessEqAntisymmetric(key(x), key(xs[0]));
    }
  }

  lemma {:induction false} LessEqAntisymmetric(a: string, b: string)
    requires LessEq(a, b) && LessEq(b, a)
    ensures a == b
  {
    if a != "" {
      LessEqAntisymmetric(a[1..], b[1..]);
      assert a == [a[0]] + a[1..] && b == [b[0]] + b[1..];
    }
  }

  /** The sort is stable: elements with one key keep their order. */
  lemma {:induction false} SortByIsStable<T>(xs: seq<T>, key: T -> string, k: string)
    ensures WithKey(SortBy(xs, key), key, k) == WithKey(xs, key, k)
  {
    if xs != [] {
      var last := |xs| - 1;
      SortByIsStable(xs[..last], key, k);
      SortBySorts(xs[..last], key);
      InsertIsLast(xs[last], SortBy(xs[..last], key), key, k);
      WithKeyConcat(xs[..last], [xs[last]], key, k);
      assert xs == xs[..last] + [xs[last]];
    }
  }

  predicate Distinct<T(==)>(xs: seq<T>) {
    forall i, j :: 0 <= i < j < |xs| ==> xs[i] != xs[j]
  }

  lemma {:induction false} DistinctIsOnce<T>(xs: seq<T>)
    ensures Distinct(xs) <==> forall x :: multiset(xs)[x] <= 1
  {
    if Distinct(xs) {
      forall x ensures multiset(xs)[x] <= 1 {
        OnceEach(xs, x);
      }
    } else {
      var i, j :| 0 <= i < j < |xs| && xs[i] == xs[j];
      assert xs == xs[..i] + [xs[i]] + xs[i + 1..j] + [xs[j]] + xs[j + 1..];
      assert multiset(xs)[xs[i]] >= 2;
    }
  }

  lemma {:induction false} OnceEach<T>(xs: seq<T>, x: T)
    requires Distinct(xs)
    ensures multiset(xs)[x] <= 1
  {
    if xs != [] {
      OnceEach(xs[1..], x);
      assert xs == [xs[0]] + xs[1..];
      assert xs[0] !in xs[1..];
    }
  }

  ghost predicate DistinctKeys<T>(xs: seq<T>, key: T -> string) {
    forall i, j :: 0 <= i < j < |xs| ==> key(xs[i]) != key(xs[j])
  }

  /** Sorting elements with distinct keys puts the keys in strictly increasing order. */
  lemma {:induction false} SortByIncreases<T>(xs: seq<T>, key: T -> string)
    requires DistinctKeys(xs, key)
    ensures var ys := SortBy(xs, key);
            forall i, j :: 0 <= i < j < |ys| ==> Less(key(ys[i]), key(ys[j]))
  {
    var ys := SortBy(xs, key);
    SortBySorts(xs, key);
    forall i, j | 0 <= i < j < |ys| ensures Less(key(ys[i]), key(ys[j])) {
      assert Distinct(xs);
      DistinctIsOnce(xs);
      DistinctIsOnce(ys);
      assert ys[i] in multiset(ys) && ys[j] in multiset(ys);
      assert ys[i] in xs && ys[j] in xs;
    }
  }
}
