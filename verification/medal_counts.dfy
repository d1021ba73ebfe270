/** The target player's medal tally across matches and its two most frequent
    medals (analyzer.js:333-336, 372-375). The tally is an object keyed by
    medal name, so its entries iterate in first-insertion order; here it is
    an association list in that order. */
module MedalCounts {
  import opened Records
  import opened Sorting
  import opened Medals

  type Counts = seq<(Stat, nat)>

  /** No key appears twice. */
  predicate Distinct(c: Counts)
  {
    forall i, j :: 0 <= i < j < |c| ==> c[i].0 != c[j].0
  }

  /** The count held for `k`; 0 when absent. */
  function CountOf(c: Counts, k: Stat): nat
  {
    if c == [] then 0 else if c[0].0 == k then c[0].1 else CountOf(c[1..], k)
  }

  /** Every tallied key has been seen at least once. */
  predicate Positive(c: Counts)
  {
    forall i :: 0 <= i < |c| ==> c[i].1 >= 1
  }

  /** A key that is not tallied has count 0. */
  lemma {:induction false} CountOfAbsent(c: Counts, k: Stat)
    requires k !in Keys(c)
    ensures CountOf(c, k) == 0
  {
    if c != [] {
      assert c[0].0 in Keys(c);
      assert Keys(c[1..]) <= Keys(c) by {
        forall x | x in Keys(c[1..]) ensures x in Keys(c) {
          var i :| 0 <= i < |c[1..]| && c[1..][i].0 == x;
          assert c[i + 1] == c[1..][i];
        }
      }
      CountOfAbsent(c[1..], k);
    }
  }

  function Keys(c: Counts): set<Stat>
  {
    set i | 0 <= i < |c| :: c[i].0
  }

  /** `medalCounts[k] = (medalCounts[k] || 0) + 1`. */
  function Bump(c: Counts, k: Stat): (r: Counts)
  {
    if c == [] then [(k, 1)]
    else if c[0].0 == k then [(k, c[0].1 + 1)] + c[1..]
    else [c[0]] + Bump(c[1..], k)
  }

  lemma KeysCons(x: (Stat, nat), rest: Counts)
    ensures Keys([x] + rest) == {x.0} + Keys(rest)
  {
    var c := [x] + rest;
    forall y | y in Keys(c) ensures y in {x.0} + Keys(rest) {
      var i :| 0 <= i < |c| && c[i].0 == y;
      if i > 0 { assert rest[i - 1] == c[i]; }
    }
    forall y | y in Keys(rest) ensures y in Keys(c) {
      var i :| 0 <= i < |rest| && rest[i].0 == y;
      assert c[i + 1] == rest[i];
    }
    assert c[0] == x;
  }

  lemma DistinctCons(x: (Stat, nat), rest: Counts)
    ensures Distinct([x] + rest) <==> Distinct(rest) && x.0 !in Keys(rest)
  {
    var c := [x] + rest;
    if Distinct(c) {
      forall i, j | 0 <= i < j < |rest| ensures rest[i].0 != rest[j].0 {
        assert rest[i] == c[i + 1] && rest[j] == c[j + 1];
      }
      forall i | 0 <= i < |rest| ensures rest[i].0 != x.0 {
        assert rest[i] == c[i + 1] && c[0] == x;
      }
    }
    if Distinct(rest) && x.0 !in Keys(rest) {
      forall i, j | 0 <= i < j < |c| ensures c[i].0 != c[j].0 {
        assert c[j] == rest[j - 1];
        if i > 0 { assert c[i] == rest[i - 1]; }
      }
    }
  }

  /** Bumping adds one to `k`'s count and leaves every other count, the
      order of existing keys and their distinctness alone; a new key goes at
      the end. */
  lemma BumpSpec(c: Counts, k: Stat)
    requires Distinct(c)
    ensures Distinct(Bump(c, k))
    ensures forall k' :: CountOf(Bump(c, k), k') == CountOf(c, k') + (if k' == k then 1 else 0)
    ensures Keys(Bump(c, k)) == Keys(c) + {k}
    ensures k !in Keys(c) ==> Bump(c, k) == c + [(k, 1)]
    ensures k in Keys(c) ==> |Bump(c, k)| == |c| && forall i :: 0 <= i < |c| ==> Bump(c, k)[i].0 == c[i].0
  {
    BumpKeys(c, k);
    BumpDistinct(c, k);
    forall k' ensures CountOf(Bump(c, k), k') == CountOf(c, k') + (if k' == k then 1 else 0) {
      BumpCount(c, k, k');
    }
    BumpShape(c, k);
  }

  lemma {:induction false} BumpKeys(c: Counts, k: Stat)
    ensures Keys(Bump(c, k)) == Keys(c) + {k}
  {
    if c == [] {
      KeysCons((k, 1), []);
    } else {
      var tail := c[1..];
      assert c == [c[0]] + tail;
      KeysCons(c[0], tail);
      if c[0].0 == k {
        KeysCons((k, c[0].1 + 1), tail);
      } else {
        BumpKeys(tail, k);
        KeysCons(c[0], Bump(tail, k));
      }
    }
  }

  lemma {:induction false} BumpDistinct(c: Counts, k: Stat)
    requires Distinct(c)
    ensures Distinct(Bump(c, k))
  {
    if c == [] {
      DistinctCons((k, 1), []);
    } else {
      var tail := c[1..];
      assert c == [c[0]] + tail;
      DistinctCons(c[0], tail);
      if c[0].0 == k {
        DistinctCons((k, c[0].1 + 1), tail);
      } else {
        BumpDistinct(tail, k);
        BumpKeys(tail, k);
        DistinctCons(c[0], Bump(tail, k));
      }
    }
  }

  lemma {:induction false} BumpCount(c: Counts, k: Stat, k': Stat)
    ensures CountOf(Bump(c, k), k') == CountOf(c, k') + (if k' == k then 1 else 0)
  {
    if c == [] {
      assert [(k, 1)][1..] == [];
    } else if c[0].0 != k {
      BumpCount(c[1..], k, k');
      assert ([c[0]] + Bump(c[1..], k))[1..] == Bump(c[1..], k);
    } else {
      assert ([(k, c[0].1 + 1)] + c[1..])[1..] == c[1..];
    }
  }

  lemma {:induction false} BumpShape(c: Counts, k: Stat)
    ensures k !in Keys(c) ==> Bump(c, k) == c + [(k, 1)]
    ensures k in Keys(c) ==> |Bump(c, k)| == |c| && forall i :: 0 <= i < |c| ==> Bump(c, k)[i].0 == c[i].0
  {
    if c != [] {
      var tail := c[1..];
      assert c == [c[0]] + tail;
      KeysCons(c[0], tail);
      if c[0].0 != k {
        BumpShape(tail, k);
        var r := Bump(tail, k);
        assert Bump(c, k) == [c[0]] + r;
        if k !in Keys(c) {
          assert [c[0]] + (tail + [(k, 1)]) == c + [(k, 1)];
        }
      }
    }
  }

  lemma {:induction false} BumpPositive(c: Counts, k: Stat)
    requires Positive(c)
    ensures Positive(Bump(c, k))
  {
    if c != [] && c[0].0 != k {
      BumpPositive(c[1..], k);
      var r := Bump(c[1..], k);
      assert Bump(c, k) == [c[0]] + r;
      assert forall i :: 1 <= i < |r| + 1 ==> ([c[0]] + r)[i] == r[i - 1];
    }
  }

  /** How many medals of `ms` have key `k`. */
  function Occurrences(ms: seq<Medal>, k: Stat): nat
  {
    if ms == [] then 0 else (if ms[0].key == k then 1 else 0) + Occurrences(ms[1..], k)
  }

  /** `ms.forEach(md => bump(md.key))`. */
  function BumpAll(c: Counts, ms: seq<Medal>): Counts
    decreases |ms|
  {
    if ms == [] then c else BumpAll(Bump(c, ms[0].key), ms[1..])
  }

  /** Tallying a list of medals adds each key's number of occurrences. */
  lemma {:induction false} BumpAllSpec(c: Counts, ms: seq<Medal>)
    requires Distinct(c)
    ensures Distinct(BumpAll(c, ms))
    ensures Positive(c) ==> Positive(BumpAll(c, ms))
    ensures forall k :: CountOf(BumpAll(c, ms), k) == CountOf(c, k) + Occurrences(ms, k)
    decreases |ms|
  {
    if ms != [] {
      BumpSpec(c, ms[0].key);
      if Positive(c) {
        BumpPositive(c, ms[0].key);
      }
      BumpAllSpec(Bump(c, ms[0].key), ms[1..]);
    }
  }

  function CountKey(e: (Stat, nat)): real
  {
    e.1 as real
  }

  /** The keys of the (at most) two largest counts, ties going to the key
      inserted first. */
  function TopMedals(c: Counts): (r: seq<Stat>)
    ensures |r| == if |c| < 2 then |c| else 2
  {
    var s := SortDesc(c, CountKey);
    var m := if |c| < 2 then |c| else 2;
    seq(m, i requires 0 <= i < m => s[i].0)
  }

  /** The chosen keys are tallied keys, listed from the larger count down,
      and every key left out has a count no larger than any chosen one. */
  lemma TopMedalsSpec(c: Counts)
    requires Distinct(c)
    ensures var r := TopMedals(c);
            && (forall i :: 0 <= i < |r| ==> r[i] in Keys(c))
            && (forall i, j :: 0 <= i < j < |r| ==> CountOf(c, r[i]) >= CountOf(c, r[j]))
            && (forall k, i :: k in Keys(c) && k !in r && 0 <= i < |r| ==> CountOf(c, k) <= CountOf(c, r[i]))
  {
    var s := SortDesc(c, CountKey);
    var m := if |c| < 2 then |c| else 2;
    var r := TopMedals(c);
    forall i | 0 <= i < |r| ensures r[i] in Keys(c) {
      TopEntry(c, i);
    }
    forall i, j | 0 <= i < j < |r| ensures CountOf(c, r[i]) >= CountOf(c, r[j]) {
      TopEntry(c, i);
      TopEntry(c, j);
      assert CountKey(s[i]) >= CountKey(s[j]);
    }
    forall k, i | k in Keys(c) && k !in r && 0 <= i < |r| ensures CountOf(c, k) <= CountOf(c, r[i]) {
      TopEntry(c, i);
      var x :| 0 <= x < |c| && c[x].0 == k;
      CountOfDistinct(c, x);
      assert c[x] !in s[..m] by {
        forall y | 0 <= y < m ensures s[..m][y] != c[x] {
          assert r[y] == s[y].0;
        }
      }
      SortedPrefixDominates(c, CountKey, m, c[x], i);
    }
  }

  /** The `i`-th chosen key is the key of the `i`-th sorted entry, a tallied
      key whose count is that entry's. */
  lemma TopEntry(c: Counts, i: nat)
    requires Distinct(c) && i < |TopMedals(c)|
    ensures var s := SortDesc(c, CountKey);
            && i < |s| && TopMedals(c)[i] == s[i].0
            && TopMedals(c)[i] in Keys(c) && CountOf(c, TopMedals(c)[i]) == s[i].1
  {
    var s := SortDesc(c, CountKey);
    assert s[i] in multiset(c);
    var k :| 0 <= k < |c| && c[k] == s[i];
    CountOfDistinct(c, k);
  }

  /** In a distinct list, the count of an entry's key is that entry's count. */
  lemma {:induction false} CountOfDistinct(c: Counts, i: nat)
    requires Distinct(c) && i < |c|
    ensures CountOf(c, c[i].0) == c[i].1
  {
    if i > 0 {
      var tail := c[1..];
      assert Distinct(tail) by {
        forall a, b | 0 <= a < b < |tail| ensures tail[a].0 != tail[b].0 {
          assert tail[a] == c[a + 1] && tail[b] == c[b + 1];
        }
      }
      CountOfDistinct(tail, i - 1);
      assert tail[i - 1] == c[i];
    }
  }

  /** Bumping an empty tally twice for one key and once for another makes the
      twice-seen key the top medal. */
  lemma TopMedalsExample()
    ensures TopMedals(BumpAll([], [Medal(Losses, 5.0), Medal(Destruction, 9.0), Medal(Destruction, 7.0)]))
            == [Destruction, Losses]
  {
    var c := BumpAll([], [Medal(Losses, 5.0), Medal(Destruction, 9.0), Medal(Destruction, 7.0)]);
    assert Bump([], Losses) == [(Losses, 1)];
    assert Bump([(Losses, 1)], Destruction) == [(Losses, 1), (Destruction, 1)];
    assert Bump([(Losses, 1), (Destruction, 1)], Destruction) == [(Losses, 1), (Destruction, 2)];
    assert c == [(Losses, 1), (Destruction, 2)];
    var s := SortDesc(c, CountKey);
    assert [(Losses, 1)][..0] == [];
    assert c[..1] == [(Losses, 1)];
    assert SortDesc([(Losses, 1)], CountKey) == [(Losses, 1)];
    assert s == [(Destruction, 2), (Losses, 1)];
  }
}
