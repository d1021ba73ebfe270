/** Mid-rank percentile of a value within a population (analyzer.js:17-22). */
module Ranking {
  import opened Arith

  function CountBelow(xs: seq<real>, v: real): nat
  {
    if xs == [] then 0 else (if xs[0] < v then 1 else 0) + CountBelow(xs[1..], v)
  }

  function CountEqual(xs: seq<real>, v: real): nat
  {
    if xs == [] then 0 else (if xs[0] == v then 1 else 0) + CountEqual(xs[1..], v)
  }

  lemma {:induction false} CountsWithin(xs: seq<real>, v: real)
    ensures CountBelow(xs, v) + CountEqual(xs, v) <= |xs|
  {
    if xs != [] {
      CountsWithin(xs[1..], v);
    }
  }

  /** Share of the population below `v`, ties counting half, times 100.
      Populations of at most one value give the neutral 50. */
  function Percentile(v: real, xs: seq<real>): (r: real)
    ensures 0.0 <= r <= 100.0
    ensures |xs| <= 1 ==> r == 50.0
  {
    if |xs| <= 1 then 50.0
    else
      var mid := CountBelow(xs, v) as real + CountEqual(xs, v) as real * 0.5;
      CountsWithin(xs, v);
      DivAtMostOne(mid, |xs| as real);
      (mid / |xs| as real) * 100.0
  }

  /** Everything equal to or below `v` is strictly below any larger `w`. */
  lemma {:induction false} CountsShift(xs: seq<real>, v: real, w: real)
    requires v < w
    ensures CountBelow(xs, v) + CountEqual(xs, v) <= CountBelow(xs, w)
  {
    if xs != [] {
      CountsShift(xs[1..], v, w);
    }
  }

  /** A larger value never ranks lower in the same population. */
  lemma PercentileMonotone(v: real, w: real, xs: seq<real>)
    requires v <= w
    ensures Percentile(v, xs) <= Percentile(w, xs)
  {
    if |xs| > 1 && v < w {
      CountsShift(xs, v, w);
      var a := CountBelow(xs, v) as real + CountEqual(xs, v) as real * 0.5;
      var b := CountBelow(xs, w) as real + CountEqual(xs, w) as real * 0.5;
      DivMonotone(a, b, |xs| as real);
    }
  }

  lemma {:induction false} CountEqualMember(xs: seq<real>, v: real)
    requires v in xs
    ensures CountEqual(xs, v) >= 1
  {
    if xs[0] != v {
      CountEqualMember(xs[1..], v);
    }
  }

  lemma {:induction false} CountsOfMaximum(xs: seq<real>, v: real)
    requires forall i :: 0 <= i < |xs| ==> xs[i] <= v
    ensures CountBelow(xs, v) + CountEqual(xs, v) == |xs|
  {
    if xs != [] {
      CountsOfMaximum(xs[1..], v);
    }
  }

  /** A lower bound on the tie-adjusted count bounds the percentile. */
  lemma PercentileAtLeast(v: real, xs: seq<real>, a: real)
    requires |xs| > 1
    requires a <= CountBelow(xs, v) as real + CountEqual(xs, v) as real * 0.5
    ensures Percentile(v, xs) >= a / |xs| as real * 100.0
  {
    var mid := CountBelow(xs, v) as real + CountEqual(xs, v) as real * 0.5;
    DivMonotone(a, mid, |xs| as real);
  }

  /** A member of a population of n >= 2 ranks at least 50/n, and a maximal
      member at least 50: it always counts as half tied with itself. */
  lemma PercentileOfMember(v: real, xs: seq<real>)
    requires v in xs
    ensures Percentile(v, xs) >= 50.0 / |xs| as real
    ensures (forall i :: 0 <= i < |xs| ==> xs[i] <= v) ==> Percentile(v, xs) >= 50.0
  {
    var n := |xs| as real;
    if |xs| > 1 {
      CountEqualMember(xs, v);
      PercentileAtLeast(v, xs, 0.5);
      assert 0.5 / n * 100.0 == 50.0 / n;
      if forall i :: 0 <= i < |xs| ==> xs[i] <= v {
        CountsOfMaximum(xs, v);
        CountsWithin(xs, v);
        PercentileAtLeast(v, xs, n * 0.5);
        assert n * 0.5 / n * 100.0 == 50.0;
      }
    }
  }

  /** A value above the whole population ranks 100, one below it ranks 0. */
  lemma PercentileExtremes(v: real, xs: seq<real>)
    requires |xs| > 1
    ensures (forall i :: 0 <= i < |xs| ==> xs[i] < v) ==> Percentile(v, xs) == 100.0
    ensures (forall i :: 0 <= i < |xs| ==> xs[i] > v) ==> Percentile(v, xs) == 0.0
  {
    if forall i :: 0 <= i < |xs| ==> xs[i] < v {
      CountsOfMaximum(xs, v);
      CountsWithin(xs, v);
      assert CountEqual(xs, v) == 0 by { CountNoneEqual(xs, v); }
    }
    if forall i :: 0 <= i < |xs| ==> xs[i] > v {
      CountNoneBelow(xs, v);
      CountNoneEqual(xs, v);
    }
  }

  /** The program ranks a member of its own population: a strict maximum of
      n values ranks 100 - 50/n, a strict minimum 50/n. */
  lemma PercentileOfStrictExtreme(xs: seq<real>, i: nat)
    requires |xs| > 1 && i < |xs|
    ensures (forall j :: 0 <= j < |xs| && j != i ==> xs[j] < xs[i]) ==>
              Percentile(xs[i], xs) == 100.0 - 50.0 / |xs| as real
    ensures (forall j :: 0 <= j < |xs| && j != i ==> xs[j] > xs[i]) ==>
              Percentile(xs[i], xs) == 50.0 / |xs| as real
  {
    var v, n := xs[i], |xs| as real;
    if forall j :: 0 <= j < |xs| && j != i ==> xs[j] < v {
      CountEqualOnce(xs, v, i);
      CountsOfMaximum(xs, v);
      assert CountBelow(xs, v) as real == n - 1.0;
      assert (n - 1.0 + 0.5) / n * 100.0 == 100.0 - 50.0 / n;
    }
    if forall j :: 0 <= j < |xs| && j != i ==> xs[j] > v {
      CountEqualOnce(xs, v, i);
      CountNoneBelow(xs, v);
      assert 0.5 / n * 100.0 == 50.0 / n;
    }
  }

  /** A value held by exactly one position is counted once. */
  lemma {:induction false} CountEqualOnce(xs: seq<real>, v: real, i: nat)
    requires i < |xs| && xs[i] == v
    requires forall j :: 0 <= j < |xs| && j != i ==> xs[j] != v
    ensures CountEqual(xs, v) == 1
  {
    if i == 0 {
      CountNoneEqual(xs[1..], v);
    } else {
      CountEqualOnce(xs[1..], v, i - 1);
    }
  }

  lemma {:induction false} CountNoneEqual(xs: seq<real>, v: real)
    requires forall i :: 0 <= i < |xs| ==> xs[i] != v
    ensures CountEqual(xs, v) == 0
  {
    if xs != [] {
      CountNoneEqual(xs[1..], v);
    }
  }

  lemma {:induction false} CountNoneBelow(xs: seq<real>, v: real)
    requires forall i :: 0 <= i < |xs| ==> xs[i] >= v
    ensures CountBelow(xs, v) == 0
  {
    if xs != [] {
      CountNoneBelow(xs[1..], v);
    }
  }

  /** Ties share their group's midpoint: 2 in [1, 2, 2, 3] ranks exactly 50. */
  lemma PercentileTieExample()
    ensures Percentile(2.0, [1.0, 2.0, 2.0, 3.0]) == 50.0
  {
    var xs := [1.0, 2.0, 2.0, 3.0];
    assert xs[1..] == [2.0, 2.0, 3.0] && xs[1..][1..] == [2.0, 3.0] && xs[1..][1..][1..] == [3.0];
    assert CountBelow(xs, 2.0) == 1;
    assert CountEqual(xs, 2.0) == 2;
  }
}
