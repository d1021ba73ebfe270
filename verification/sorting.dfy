/** Stable descending sort by a real-valued key, and the "first maximum" of a
    sequence.

    JavaScript's `Array.prototype.sort` is stable, so sorting with the
    comparator `(a, b) => key(b) - key(a)` yields the unique stable
    descending ordering. It is modelled here by insertion sort. The analyser
    sorts rosters (analyzer.js:329-330), playstyle dimensions (436) and medal
    counts (373) this way, and takes the head of such a sort for favourite
    units (479-481). */
module Sorting {

  /** The elements of `xs` whose key equals `v`, in their original order. */
  function WithKey<T>(xs: seq<T>, key: T -> real, v: real): seq<T>
  {
    if xs == [] then []
    else (if key(xs[0]) == v then [xs[0]] else []) + WithKey(xs[1..], key, v)
  }

  ghost predicate SortedDesc<T>(xs: seq<T>, key: T -> real)
  {
    forall i, j :: 0 <= i < j < |xs| ==> key(xs[i]) >= key(xs[j])
  }

  /** Places `x` after every element of `s` whose key is at least `key(x)`. */
  function Insert<T>(x: T, s: seq<T>, key: T -> real): seq<T>
  {
    if s == [] then [x]
    else if key(s[0]) >= key(x) then [s[0]] + Insert(x, s[1..], key)
    else [x] + s
  }

  /** Stable sort, largest key first. */
  function SortDesc<T>(xs: seq<T>, key: T -> real): (r: seq<T>)
    ensures |r| == |xs|
    ensures multiset(r) == multiset(xs)
    ensures SortedDesc(r, key)
    ensures forall v :: WithKey(r, key, v) == WithKey(xs, key, v)
  {
    if xs == [] then []
    else
      var init := xs[..|xs| - 1];
      var last := xs[|xs| - 1];
      assert xs == init + [last];
      var s := SortDesc(init, key);
      InsertPerm(last, s, key);
      InsertSorted(last, s, key);
      forall v ensures WithKey(Insert(last, s, key), key, v) == WithKey(xs, key, v) {
        InsertStable(last, s, key, v);
        WithKeyAppend(init, [last], key, v);
      }
      Insert(last, s, key)
  }

  lemma {:induction false} WithKeyAppend<T>(a: seq<T>, b: seq<T>, key: T -> real, v: real)
    ensures WithKey(a + b, key, v) == WithKey(a, key, v) + WithKey(b, key, v)
  {
    if a == [] {
      assert a + b == b;
    } else {
      var h := if key(a[0]) == v then [a[0]] else [];
      assert (a + b)[0] == a[0] && (a + b)[1..] == a[1..] + b;
      assert WithKey(a + b, key, v) == h + WithKey(a[1..] + b, key, v);
      WithKeyAppend(a[1..], b, key, v);
    }
  }

  lemma {:induction false} WithKeyNone<T>(xs: seq<T>, key: T -> real, v: real)
    requires forall i :: 0 <= i < |xs| ==> key(xs[i]) != v
    ensures WithKey(xs, key, v) == []
  {
    if xs != [] {
      WithKeyNone(xs[1..], key, v);
    }
  }

  lemma {:induction false} InsertPerm<T>(x: T, s: seq<T>, key: T -> real)
    ensures |Insert(x, s, key)| == |s| + 1
    ensures multiset(Insert(x, s, key)) == multiset(s) + multiset{x}
  {
    if s != [] && key(s[0]) >= key(x) {
      InsertPerm(x, s[1..], key);
      assert s == [s[0]] + s[1..];
    }
  }

  /** Every key in `Insert(x, s, key)` is a key of `x` or of an element of `s`. */
  lemma {:induction false} InsertKeys<T>(x: T, s: seq<T>, key: T -> real, bound: real)
    requires key(x) <= bound
    requires forall i :: 0 <= i < |s| ==> key(s[i]) <= bound
    ensures forall i :: 0 <= i < |Insert(x, s, key)| ==> key(Insert(x, s, key)[i]) <= bound
  {
    if s != [] && key(s[0]) >= key(x) {
      InsertKeys(x, s[1..], key, bound);
    }
  }

  lemma {:induction false} InsertSorted<T>(x: T, s: seq<T>, key: T -> real)
    requires SortedDesc(s, key)
    ensures SortedDesc(Insert(x, s, key), key)
  {
    var r := Insert(x, s, key);
    if s == [] {
    } else if key(s[0]) >= key(x) {
      var rest := Insert(x, s[1..], key);
      InsertSorted(x, s[1..], key);
      InsertKeys(x, s[1..], key, key(s[0]));
      assert r == [s[0]] + rest;
      forall i, j | 0 <= i < j < |r| ensures key(r[i]) >= key(r[j]) {
        assert r[j] == rest[j - 1];
        if i > 0 {
          assert r[i] == rest[i - 1];
        }
      }
    } else {
      assert r == [x] + s;
      forall i, j | 0 <= i < j < |r| ensures key(r[i]) >= key(r[j]) {
        assert r[j] == s[j - 1];
        if i > 0 {
          assert r[i] == s[i - 1];
        } else {
          assert key(s[0]) >= key(s[j - 1]);
        }
      }
    }
  }

  lemma {:induction false} InsertStable<T>(x: T, s: seq<T>, key: T -> real, v: real)
    requires SortedDesc(s, key)
    ensures WithKey(Insert(x, s, key), key, v)
            == WithKey(s, key, v) + (if key(x) == v then [x] else [])
  {
    var r := Insert(x, s, key);
    var hx := if key(x) == v then [x] else [];
    if s == [] {
      assert r == [x] && r[1..] == [];
      assert WithKey(r, key, v) == hx + WithKey([], key, v);
    } else if key(s[0]) >= key(x) {
      var h := if key(s[0]) == v then [s[0]] else [];
      var r' := Insert(x, s[1..], key);
      assert r == [s[0]] + r';
      assert r[0] == s[0] && r[1..] == r';
      assert WithKey(r, key, v) == h + WithKey(r', key, v);
      InsertStable(x, s[1..], key, v);
      assert WithKey(s, key, v) == h + WithKey(s[1..], key, v);
    } else {
      assert r == [x] + s;
      assert r[0] == x && r[1..] == s;
      assert WithKey(r, key, v) == hx + WithKey(s, key, v);
      if key(x) == v {
        forall i | 0 <= i < |s| ensures key(s[i]) != v {
          assert key(s[0]) >= key(s[i]);
        }
        WithKeyNone(s, key, v);
      }
    }
  }

  /** Index of the first element whose key is maximal: a left-to-right scan
      that replaces the current best only on a strictly larger key. */
  function FirstMaxIndex<T>(xs: seq<T>, key: T -> real): (i: nat)
    requires |xs| > 0
    ensures i < |xs|
    ensures forall j :: 0 <= j < |xs| ==> key(xs[j]) <= key(xs[i])
    ensures forall j :: 0 <= j < i ==> key(xs[j]) < key(xs[i])
  {
    if |xs| == 1 then 0
    else
      var k := FirstMaxIndex(xs[..|xs| - 1], key);
      if key(xs[|xs| - 1]) > key(xs[k]) then |xs| - 1 else k
  }

  /** The head of the stable descending sort is the first maximum. */
  lemma {:induction false} SortHeadIsFirstMax<T>(xs: seq<T>, key: T -> real)
    requires |xs| > 0
    ensures SortDesc(xs, key)[0] == xs[FirstMaxIndex(xs, key)]
  {
    if |xs| > 1 {
      var init := xs[..|xs| - 1];
      SortHeadIsFirstMax(init, key);
      assert init[FirstMaxIndex(init, key)] == xs[FirstMaxIndex(init, key)];
    }
  }

  /** The first `m` elements of the sort come from `xs`. */
  lemma SortedPrefixFrom<T>(xs: seq<T>, key: T -> real, m: nat)
    requires m <= |xs|
    ensures forall j :: 0 <= j < m ==> SortDesc(xs, key)[j] in xs
  {
    var s := SortDesc(xs, key);
    forall j | 0 <= j < m ensures s[j] in xs {
      assert s[j] in multiset(xs);
    }
  }

  /** An element of `xs` left out of the first `m` of the sort has a key at
      most that of each of them. */
  lemma SortedPrefixDominates<T>(xs: seq<T>, key: T -> real, m: nat, x: T, j: nat)
    requires m <= |xs| && j < m
    requires x in xs && x !in SortDesc(xs, key)[..m]
    ensures key(x) <= key(SortDesc(xs, key)[j])
  {
    var s := SortDesc(xs, key);
    assert x in multiset(s);
    var k :| 0 <= k < |s| && s[k] == x;
  }
}
