/** Folds and sorting over sequences, standing in for Rust's `Iterator::sum`,
    `Iterator::fold` with `*`, and `sort_by` / `sort_unstable_by_key`. */
module Seqs {

  /** `xs.iter().map(f).sum()`: the left fold of `+` over the images. */
  function SumBy<T>(s: seq<T>, f: T -> int): int
    decreases |s|
  {
    if s == [] then 0 else SumBy(s[..|s| - 1], f) + f(s[|s| - 1])
  }

  lemma {:induction false} SumByConcat<T>(a: seq<T>, b: seq<T>, f: T -> int)
    ensures SumBy(a + b, f) == SumBy(a, f) + SumBy(b, f)
    decreases |b|
  {
    if b != [] {
      assert (a + b)[..|a + b| - 1] == a + b[..|b| - 1];
      SumByConcat(a, b[..|b| - 1], f);
    } else {
      assert a + b == a;
    }
  }

  /** A sum over a sequence depends only on the multiset of its elements. */
  lemma {:induction false} SumByPermutation<T>(a: seq<T>, b: seq<T>, f: T -> int)
    requires multiset(a) == multiset(b)
    ensures SumBy(a, f) == SumBy(b, f)
    decreases |a|
  {
    if a == [] {
      assert |b| == |multiset(b)| == 0;
    } else {
      var x := a[|a| - 1];
      var i := RemoveLast(a, b);
      var b' := b[..i] + b[i + 1..];
      SumByPermutation(a[..|a| - 1], b', f);
      SumByConcat(b[..i] + [x], b[i + 1..], f);
      SumByConcat(b[..i], [x], f);
      SumByConcat(b[..i], b[i + 1..], f);
      assert SumBy([x], f) == f(x) by { assert [x][..0] == []; }
    }
  }

  /** `xs.into_iter().fold(1, |acc, n| acc * n)`. */
  function Product(s: seq<nat>): nat
    decreases |s|
  {
    if s == [] then 1 else Product(s[..|s| - 1]) * s[|s| - 1]
  }

  lemma {:induction false} ProductConcat(a: seq<nat>, b: seq<nat>)
    ensures Product(a + b) == Product(a) * Product(b)
    decreases |b|
  {
    if b != [] {
      assert (a + b)[..|a + b| - 1] == a + b[..|b| - 1];
      ProductConcat(a, b[..|b| - 1]);
    } else {
      assert a + b == a;
    }
  }

  /** A product depends only on the multiset of its factors. */
  lemma {:induction false} ProductPermutation(a: seq<nat>, b: seq<nat>)
    requires multiset(a) == multiset(b)
    ensures Product(a) == Product(b)
    decreases |a|
  {
    if a == [] {
      assert |b| == |multiset(b)| == 0;
    } else {
      var x := a[|a| - 1];
      var i := RemoveLast(a, b);
      var b' := b[..i] + b[i + 1..];
      ProductPermutation(a[..|a| - 1], b');
      ProductConcat(b[..i] + [x], b[i + 1..]);
      ProductConcat(b[..i], [x]);
      ProductConcat(b[..i], b[i + 1..]);
      assert Product([x]) == x by { assert [x][..0] == []; }
      var p, q := Product(b[..i]), Product(b[i + 1..]);
      assert Product(b) == p * x * q;
      assert Product(b') == p * q;
      assert Product(a) == Product(a[..|a| - 1]) * x;
      assert p * x * q == p * q * x;
    }
  }

  /** Where the last element of `a` sits in its permutation `b`; removing both leaves permutations. */
  lemma RemoveLast<T>(a: seq<T>, b: seq<T>) returns (i: nat)
    requires a != [] && multiset(a) == multiset(b)
    ensures i < |b| && b[i] == a[|a| - 1]
    ensures b == b[..i] + [b[i]] + b[i + 1..]
    ensures multiset(a[..|a| - 1]) == multiset(b[..i] + b[i + 1..])
  {
    var x := a[|a| - 1];
    assert x in multiset(b);
    i :| 0 <= i < |b| && b[i] == x;
    var b' := b[..i] + b[i + 1..];
    assert b == b[..i] + [x] + b[i + 1..];
    assert a == a[..|a| - 1] + [x];
    assert multiset(b') == multiset(b[..i]) + multiset(b[i + 1..]);
    assert multiset(b') + multiset{x} == multiset(b);
    assert multiset(a[..|a| - 1]) == multiset(a) - multiset{x};
    assert multiset(b') == multiset(b) - multiset{x};
  }

  /** The prefix of length `i + 1` extends the prefix of length `i` by `s[i]`. */
  lemma PrefixStep<T>(s: seq<T>, i: nat)
    requires i < |s|
    ensures s[..i + 1][..i] == s[..i] && s[..i + 1] == s[..i] + [s[i]]
  {
  }

  /** `s` is in ascending order of `key`. */
  ghost predicate SortedBy<T>(s: seq<T>, key: T -> int) {
    forall i, j :: 0 <= i < j < |s| ==> key(s[i]) <= key(s[j])
  }

  function Insert<T>(x: T, s: seq<T>, key: T -> int): (r: seq<T>)
    requires SortedBy(s, key)
    ensures SortedBy(r, key)
    ensures multiset(r) == multiset(s) + multiset{x}
    ensures |r| == |s| + 1
  {
    if s == [] || key(x) <= key(s[0]) then [x] + s
    else
      var t := Insert(x, s[1..], key);
      assert s == [s[0]] + s[1..];
      LowerBound(s, x, t, key);
      [s[0]] + t
  }

  /** The head of a sorted `s` bounds everything inserted behind it. */
  lemma LowerBound<T>(s: seq<T>, x: T, t: seq<T>, key: T -> int)
    requires s != [] && SortedBy(s, key) && key(s[0]) <= key(x)
    requires multiset(t) == multiset(s[1..]) + multiset{x}
    ensures SortedBy(t, key) ==> SortedBy([s[0]] + t, key)
  {
    forall k | 0 <= k < |t| ensures key(s[0]) <= key(t[k]) {
      assert t[k] in multiset(s[1..]) + multiset{x};
      if t[k] != x {
        assert t[k] in s[1..];
        var j :| 0 <= j < |s[1..]| && s[1..][j] == t[k];
        assert s[j + 1] == t[k];
      }
    }
    var r := [s[0]] + t;
    assert forall k :: 0 < k < |r| ==> r[k] == t[k - 1];
  }

  /** A sort by key that keeps equal keys in their input order (insertion sort). */
  function SortBy<T>(s: seq<T>, key: T -> int): (r: seq<T>)
    ensures SortedBy(r, key)
    ensures multiset(r) == multiset(s)
    ensures |r| == |s|
  {
    if s == [] then []
    else
      assert s == [s[0]] + s[1..];
      Insert(s[0], SortBy(s[1..], key), key)
  }

  function Identity(n: nat): int { n }

  /** `v.sort_by(|a, b| a.cmp(b))` on natural numbers. */
  function SortAscending(s: seq<nat>): (r: seq<nat>)
    ensures |r| == |s| && multiset(r) == multiset(s)
    ensures forall i, j :: 0 <= i < j < |r| ==> r[i] <= r[j]
  {
    var r := SortBy(s, Identity);
    assert forall k :: 0 <= k < |r| ==> r[k] in multiset(s);
    assert forall i, j :: 0 <= i < j < |r| ==> Identity(r[i]) <= Identity(r[j]);
    r
  }
}
