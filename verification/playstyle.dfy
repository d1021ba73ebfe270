/** The playstyle profile (analyzer.js:398-449): six dimension values from
    the accumulated style ratios, and a style label chosen from the two
    highest dimensions. */
module Playstyle {
  import opened Optional
  import opened Arith
  import opened Sorting
  import opened Scoring

  /** `Math.min(100, Math.round(ratioSum / n * 50))`. */
  function DimensionValue(ratioSum: real, n: nat): (v: int)
    requires n > 0
    ensures var x := ratioSum / n as real * 50.0;
            && v <= 100
            && (v == 100 <==> x >= 99.5)
            && (v < 100 ==> v as real - 0.5 <= x < v as real + 0.5)
            && (ratioSum >= 0.0 ==> v >= 0)
  {
    var r := Round(ratioSum / n as real * 50.0);
    if r < 100 then r else 100
  }

  datatype Dimension = Dimension(key: Category, value: int)

  /** The dimensions in the order the source declares its accumulators. */
  function Dimensions(sums: Scores, n: nat): (ds: seq<Dimension>)
    requires n > 0
    ensures |ds| == |CategoryOrder|
    ensures forall i :: 0 <= i < |ds| ==>
              ds[i].key == CategoryOrder[i] && ds[i].value == DimensionValue(ScoreOf(sums, CategoryOrder[i]), n)
  {
    seq(|CategoryOrder|, i requires 0 <= i < |CategoryOrder| =>
      Dimension(CategoryOrder[i], DimensionValue(ScoreOf(sums, CategoryOrder[i]), n)))
  }

  function DimValue(d: Dimension): real
  {
    d.value as real
  }

  /** The first two dimensions of the stable descending sort by value. */
  function TopTwo(ds: seq<Dimension>): (top: seq<Dimension>)
    requires |ds| >= 2
    ensures |top| == 2
  {
    SortDesc(ds, DimValue)[..2]
  }

  function Keys(ds: seq<Dimension>): (ks: seq<Category>)
    ensures |ks| == |ds|
    ensures forall i :: 0 <= i < |ds| ==> ks[i] == ds[i].key
  {
    seq(|ds|, i requires 0 <= i < |ds| => ds[i].key)
  }

  /** The two chosen dimensions come from `ds`, the first is a maximum, and
      every dimension outside the pair is at most the second. */
  lemma TopTwoDominates(ds: seq<Dimension>)
    requires |ds| >= 2
    ensures var top := TopTwo(ds);
            && top[0] in ds && top[1] in ds
            && top[0].value >= top[1].value
            && (forall i :: 0 <= i < |ds| ==> ds[i].value <= top[0].value)
            && (forall i :: 0 <= i < |ds| && ds[i] != top[0] && ds[i] != top[1] ==> ds[i].value <= top[1].value)
  {
    var s := SortDesc(ds, DimValue);
    assert multiset(s) == multiset(ds);
    assert s[0] in multiset(ds) && s[1] in multiset(ds);
    forall i | 0 <= i < |ds|
      ensures ds[i].value <= s[0].value
      ensures ds[i] != s[0] && ds[i] != s[1] ==> ds[i].value <= s[1].value
    {
      assert ds[i] in multiset(s);
      var j :| 0 <= j < |s| && s[j] == ds[i];
      assert DimValue(s[0]) >= DimValue(s[j]) || j == 0;
      if ds[i] != s[0] && ds[i] != s[1] {
        assert j >= 2;
        assert DimValue(s[1]) >= DimValue(s[j]);
      }
    }
  }

  lemma {:induction false} WithKeyAll<T>(xs: seq<T>, key: T -> real, v: real)
    requires forall i :: 0 <= i < |xs| ==> key(xs[i]) == v
    ensures WithKey(xs, key, v) == xs
  {
    if xs != [] {
      WithKeyAll(xs[1..], key, v);
    }
  }

  /** With all values equal the sort keeps the input order, so the pair is
      the first two dimensions. */
  lemma UniformTopTwo(ds: seq<Dimension>)
    requires |ds| >= 2
    requires forall i :: 0 <= i < |ds| ==> ds[i].value == ds[0].value
    ensures TopTwo(ds) == ds[..2]
  {
    var s := SortDesc(ds, DimValue);
    var v := DimValue(ds[0]);
    assert forall i :: 0 <= i < |ds| ==> DimValue(ds[i]) == v;
    WithKeyAll(ds, DimValue, v);
    assert forall i :: 0 <= i < |s| ==> DimValue(s[i]) == v by {
      forall i | 0 <= i < |s| ensures DimValue(s[i]) == v {
        assert s[i] in multiset(ds);
      }
    }
    WithKeyAll(s, DimValue, v);
  }

  /** A style label: the categories it requires among the top two, and its
      English name. */
  datatype StyleLabel = StyleLabel(keys: seq<Category>, en: string)

  /** The label table, in the order it is searched (analyzer.js:398-412). */
  const StyleLabels: seq<StyleLabel> := [
    StyleLabel([Battlefield, Combat], "Iron Fist"),
    StyleLabel([Combat, Economy], "Tactician"),
    StyleLabel([Teamwork, Battlefield], "Team Core"),
    StyleLabel([Strategy, Battlefield], "Obj Hunter"),
    StyleLabel([Battlefield, Firepower], "Frontliner"),
    StyleLabel([Economy, Teamwork], "Logistics"),
    StyleLabel([Firepower, Combat], "Berserker"),
    StyleLabel([Battlefield], "Dominator"),
    StyleLabel([Combat], "Efficient"),
    StyleLabel([Teamwork], "Collaborator"),
    StyleLabel([Strategy], "Point Rush"),
    StyleLabel([Firepower], "Heavy Fire"),
    StyleLabel([Economy], "Economist")
  ]

  /** Name used when no label applies. */
  const BalancedName: string := "Balanced"

  /** Every key of `keys` is among `top`. */
  predicate Covers(keys: seq<Category>, top: seq<Category>)
  {
    forall k :: k in keys ==> k in top
  }

  /** Index of the first label whose keys all lie among `top`. */
  function FirstCovered(labels: seq<StyleLabel>, top: seq<Category>): (r: Option<nat>)
    ensures r.Some? ==> r.value < |labels| && Covers(labels[r.value].keys, top)
    ensures r.Some? ==> forall j :: 0 <= j < r.value ==> !Covers(labels[j].keys, top)
    ensures r.None? <==> forall j :: 0 <= j < |labels| ==> !Covers(labels[j].keys, top)
  {
    if labels == [] then None
    else if Covers(labels[0].keys, top) then Some(0)
    else
      var r := FirstCovered(labels[1..], top);
      if r.Some? then Some(r.value + 1) else None
  }

  /** Index of the first single-key label for `k`. */
  function FirstSingle(labels: seq<StyleLabel>, k: Category): (r: Option<nat>)
    ensures r.Some? ==> r.value < |labels| && labels[r.value].keys == [k]
    ensures r.Some? ==> forall j :: 0 <= j < r.value ==> labels[j].keys != [k]
    ensures r.None? <==> forall j :: 0 <= j < |labels| ==> labels[j].keys != [k]
  {
    if labels == [] then None
    else if |labels[0].keys| == 1 && labels[0].keys[0] == k then Some(0)
    else
      var r := FirstSingle(labels[1..], k);
      assert labels[0].keys != [k];
      if r.Some? then Some(r.value + 1) else None
  }

  /** The name of a chosen table entry; no entry means "Balanced". */
  function NameOf(i: Option<nat>): string
    requires i.Some? ==> i.value < |StyleLabels|
  {
    if i.Some? then StyleLabels[i.value].en else BalancedName
  }

  /** The three-step label choice of analyzer.js:439-441, as an index into
      the table: the first label covered by the top two, else the
      single-key label of the top dimension, else none. */
  function LabelIndex(top: seq<Category>): (r: Option<nat>)
    requires |top| > 0
    ensures r.Some? ==> r.value < |StyleLabels|
  {
    var c := FirstCovered(StyleLabels, top);
    if c.Some? then c else FirstSingle(StyleLabels, top[0])
  }

  function ChooseLabel(top: seq<Category>): string
    requires |top| > 0
  {
    NameOf(LabelIndex(top))
  }

  /** Each category has a single-key label of its own. */
  lemma SingleLabel(k: Category) returns (i: nat)
    ensures i < |StyleLabels| && StyleLabels[i].keys == [k]
  {
    match k
    case Battlefield => i := 7;
    case Combat => i := 8;
    case Teamwork => i := 9;
    case Strategy => i := 10;
    case Firepower => i := 11;
    case Economy => i := 12;
  }

  /** No table entry is named "Balanced". */
  lemma NamesNotBalanced()
    ensures forall i :: 0 <= i < |StyleLabels| ==> StyleLabels[i].en != BalancedName
  {
  }

  /** The first search always succeeds, since a single-key label covers any
      non-empty `top`: the label is the first in the table that `top`
      covers, and the two fallbacks are never reached. */
  lemma LabelIsFirstCovered(top: seq<Category>)
    requires |top| > 0
    ensures LabelIndex(top).Some?
    ensures var i := LabelIndex(top).value;
            && Covers(StyleLabels[i].keys, top)
            && (forall j :: 0 <= j < i ==> !Covers(StyleLabels[j].keys, top))
    ensures ChooseLabel(top) != BalancedName
  {
    var i := SingleLabel(top[0]);
    assert Covers(StyleLabels[i].keys, top);
    NamesNotBalanced();
  }

  /** When the top two are Battlefield and Combat, in either order, the
      label is "Iron Fist". */
  lemma IronFist(top: seq<Category>)
    requires top == [Battlefield, Combat] || top == [Combat, Battlefield]
    ensures ChooseLabel(top) == "Iron Fist"
  {
    assert Covers(StyleLabels[0].keys, top);
  }

  /** The table holds seven two-key labels followed by six single-key ones. */
  lemma LabelShapes()
    ensures |StyleLabels| == 13
    ensures forall j :: 0 <= j < 7 ==> |StyleLabels[j].keys| == 2
    ensures forall j :: 7 <= j < 13 ==> |StyleLabels[j].keys| == 1
  {
  }

  /** None of the two-key labels is covered by Economy and Battlefield. */
  lemma NoPairForEconomyBattlefield()
    ensures forall j :: 0 <= j < 7 ==> !Covers(StyleLabels[j].keys, [Economy, Battlefield])
  {
    var top := [Economy, Battlefield];
    assert Combat in StyleLabels[0].keys && Combat !in top;
    assert Combat in StyleLabels[1].keys && Combat !in top;
    assert Teamwork in StyleLabels[2].keys && Teamwork !in top;
    assert Strategy in StyleLabels[3].keys && Strategy !in top;
    assert Firepower in StyleLabels[4].keys && Firepower !in top;
    assert Teamwork in StyleLabels[5].keys && Teamwork !in top;
    assert Firepower in StyleLabels[6].keys && Firepower !in top;
  }

  /** Economy on top and Battlefield second: the table's order puts the
      Battlefield single label first, so the top dimension's own label is
      never reached. */
  lemma ShadowedFallbackExample()
    ensures ChooseLabel([Economy, Battlefield]) == "Dominator"
  {
    var top := [Economy, Battlefield];
    NoPairForEconomyBattlefield();
    assert Covers(StyleLabels[7].keys, top);
    FirstCoveredAt(StyleLabels, top, 7);
  }

  /** Index of the first two-key label whose keys both lie among `top`. */
  function FirstCoveredPair(labels: seq<StyleLabel>, top: seq<Category>): (r: Option<nat>)
    ensures r.Some? ==> r.value < |labels| && |labels[r.value].keys| == 2 && Covers(labels[r.value].keys, top)
    ensures r.Some? ==> forall j :: 0 <= j < r.value ==> !(|labels[j].keys| == 2 && Covers(labels[j].keys, top))
    ensures r.None? <==> forall j :: 0 <= j < |labels| ==> !(|labels[j].keys| == 2 && Covers(labels[j].keys, top))
  {
    if labels == [] then None
    else if |labels[0].keys| == 2 && Covers(labels[0].keys, top) then Some(0)
    else
      var r := FirstCoveredPair(labels[1..], top);
      if r.Some? then Some(r.value + 1) else None
  }

  /** The choice the fallback step evidently intends: a two-key label
      covered by the top two, else the single-key label of the highest
      dimension, else none. */
  function IntendedIndex(top: seq<Category>): (r: Option<nat>)
    requires |top| > 0
    ensures r.Some? ==> r.value < |StyleLabels|
  {
    var c := FirstCoveredPair(StyleLabels, top);
    if c.Some? then c else FirstSingle(StyleLabels, top[0])
  }

  /** With the intended choice, when no two-key label applies the label is
      the single-key label of the highest dimension; when one applies, the
      choice agrees with the code. */
  lemma IntendedFollowsTopDimension(top: seq<Category>)
    requires |top| > 0
    ensures FirstCoveredPair(StyleLabels, top).None? ==>
              IntendedIndex(top).Some? && StyleLabels[IntendedIndex(top).value].keys == [top[0]]
    ensures FirstCoveredPair(StyleLabels, top).Some? ==> IntendedIndex(top) == LabelIndex(top)
  {
    if FirstCoveredPair(StyleLabels, top).None? {
      var i := SingleLabel(top[0]);
      assert FirstSingle(StyleLabels, top[0]).Some?;
    } else {
      PairIsFirstCovered(top);
    }
  }

  /** A covered two-key label comes before every single-key one, so the
      first covered pair is the first covered label. */
  lemma PairIsFirstCovered(top: seq<Category>)
    requires FirstCoveredPair(StyleLabels, top).Some?
    ensures FirstCovered(StyleLabels, top) == FirstCoveredPair(StyleLabels, top)
  {
    var p := FirstCoveredPair(StyleLabels, top).value;
    LabelShapes();
    forall j | 0 <= j < p ensures !Covers(StyleLabels[j].keys, top) {
      assert |StyleLabels[j].keys| == 2;
    }
    FirstCoveredAt(StyleLabels, top, p);
  }

  /** The first covered label is the one at `p` when it is covered and none
      before it is. */
  lemma FirstCoveredAt(labels: seq<StyleLabel>, top: seq<Category>, p: nat)
    requires p < |labels| && Covers(labels[p].keys, top)
    requires forall j :: 0 <= j < p ==> !Covers(labels[j].keys, top)
    ensures FirstCovered(labels, top) == Some(p)
  {
    var c := FirstCovered(labels, top);
    assert c.Some?;
  }

  lemma EconomyLabelIndex(i: nat)
    requires i < |StyleLabels| && StyleLabels[i].keys == [Economy]
    ensures StyleLabels[i].en == "Economist"
  {
    LabelShapes();
    assert StyleLabels[i].keys[0] == Economy;
  }

  /** Economy on top and Battlefield second: the intended choice names the
      Economy label. */
  lemma IntendedEconomistExample()
    ensures NameOf(IntendedIndex([Economy, Battlefield])) == "Economist"
  {
    var top := [Economy, Battlefield];
    LabelShapes();
    NoPairForEconomyBattlefield();
    assert FirstCoveredPair(StyleLabels, top).None?;
    IntendedFollowsTopDimension(top);
    var i := IntendedIndex(top).value;
    assert StyleLabels[i].keys == [Economy];
    EconomyLabelIndex(i);
  }

  datatype Profile = Profile(dimensions: seq<Dimension>, styleName: string)

  /** `computePlaystyle(ratioSums, n)` without icons and localised names:
      the label is the choice as written (`LabelIndex`). */
  function ComputePlaystyle(sums: Scores, n: nat): (p: Profile)
    requires n > 0
    ensures |p.dimensions| == |CategoryOrder|
    ensures forall i :: 0 <= i < |p.dimensions| ==>
              p.dimensions[i].key == CategoryOrder[i] && p.dimensions[i].value <= 100
  {
    var ds := Dimensions(sums, n);
    Profile(ds, ChooseLabel(Keys(TopTwo(ds))))
  }

  /** The profile's label is the first label in the table whose categories
      all lie among the two highest dimensions, so a single-category label
      for the second dimension can win over the first's; it is never
      "Balanced". */
  lemma PlaystyleLabel(sums: Scores, n: nat)
    requires n > 0
    ensures var p := ComputePlaystyle(sums, n);
            var top := TopTwo(p.dimensions);
            && (forall i :: 0 <= i < |p.dimensions| ==> p.dimensions[i].value <= top[0].value)
            && (forall i :: 0 <= i < |p.dimensions| && p.dimensions[i] != top[0] && p.dimensions[i] != top[1] ==>
                  p.dimensions[i].value <= top[1].value)
            && (exists i :: 0 <= i < |StyleLabels| && Covers(StyleLabels[i].keys, Keys(top))
                            && (forall j :: 0 <= j < i ==> !Covers(StyleLabels[j].keys, Keys(top)))
                            && p.styleName == StyleLabels[i].en)
            && p.styleName != BalancedName
  {
    var ds := Dimensions(sums, n);
    var ks := Keys(TopTwo(ds));
    TopTwoDominates(ds);
    LabelIsFirstCovered(ks);
    var i := LabelIndex(ks).value;
    assert ChooseLabel(ks) == StyleLabels[i].en;
  }

  /** The profile with the label chosen as the fallback step intends
      (`IntendedIndex`). */
  function IntendedPlaystyle(sums: Scores, n: nat): (p: Profile)
    requires n > 0
    ensures p.dimensions == ComputePlaystyle(sums, n).dimensions
  {
    var ds := Dimensions(sums, n);
    Profile(ds, NameOf(IntendedIndex(Keys(TopTwo(ds)))))
  }

  /** With the intended choice, the label is the first two-category label
      both of whose categories are the two highest dimensions; failing that,
      the label of the highest dimension. It is never "Balanced", and it
      agrees with the program whenever a two-category label applies. */
  lemma IntendedPlaystyleLabel(sums: Scores, n: nat)
    requires n > 0
    ensures var p := IntendedPlaystyle(sums, n);
            var top := TopTwo(p.dimensions);
            var pair := FirstCoveredPair(StyleLabels, Keys(top));
            && (pair.Some? ==> p.styleName == StyleLabels[pair.value].en)
            && (pair.Some? ==> p.styleName == ComputePlaystyle(sums, n).styleName)
            && (pair.None? ==> exists i :: 0 <= i < |StyleLabels| && StyleLabels[i].keys == [top[0].key]
                                           && p.styleName == StyleLabels[i].en)
            && p.styleName != BalancedName
  {
    var ds := Dimensions(sums, n);
    var ks := Keys(TopTwo(ds));
    IntendedFollowsTopDimension(ks);
    NamesNotBalanced();
    if FirstCoveredPair(StyleLabels, ks).None? {
      var i := IntendedIndex(ks).value;
      assert StyleLabels[i].keys == [TopTwo(ds)[0].key];
    }
  }

  /** A profile with every dimension equal (no ratios accumulated, say)
      is labelled "Iron Fist". */
  lemma UniformProfileIsIronFist(sums: Scores, n: nat)
    requires n > 0
    requires forall c :: ScoreOf(sums, c) == ScoreOf(sums, Battlefield)
    ensures ComputePlaystyle(sums, n).styleName == "Iron Fist"
  {
    var ds := Dimensions(sums, n);
    UniformTopTwo(ds);
    var ks := Keys(TopTwo(ds));
    assert ks == [Battlefield, Combat];
    IronFist(ks);
  }

  /** Whenever Economy and Battlefield are the two highest dimensions, in
      that order, the program labels the profile "Dominator" (the
      Battlefield-only label), while the intended choice is "Economist". */
  lemma ShadowedProfile(sums: Scores, n: nat)
    requires n > 0
    requires Keys(TopTwo(Dimensions(sums, n))) == [Economy, Battlefield]
    ensures ComputePlaystyle(sums, n).styleName == "Dominator"
    ensures IntendedPlaystyle(sums, n).styleName == "Economist"
  {
    ShadowedFallbackExample();
    IntendedEconomistExample();
  }
}
