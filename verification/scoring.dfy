/** Category percentiles and the match-level WCS (analyzer.js:211-275). */
module Scoring {
  import opened Optional
  import opened Config
  import opened Arith
  import opened Ranking
  import opened Metrics

  datatype Category = Battlefield | Combat | Economy | Teamwork | Strategy | Firepower

  /** The categories in the order the source declares its accumulators. */
  const CategoryOrder: seq<Category> := [Battlefield, Combat, Economy, Teamwork, Strategy, Firepower]

  /** One real per category. */
  datatype Scores = Scores(
    battlefield: real, combat: real, economy: real,
    teamwork: real, strategy: real, firepower: real)

  function ScoreOf(s: Scores, c: Category): real
  {
    match c
    case Battlefield => s.battlefield
    case Combat => s.combat
    case Economy => s.economy
    case Teamwork => s.teamwork
    case Strategy => s.strategy
    case Firepower => s.firepower
  }

  /** Every category at the neutral 50. */
  const Neutral: Scores := Scores(50.0, 50.0, 50.0, 50.0, 50.0, 50.0)

  predicate InRange(s: Scores)
  {
    forall c :: 0.0 <= ScoreOf(s, c) <= 100.0
  }

  /** The derived metrics that feed the percentiles. */
  datatype MetricKey =
    | TeamLossShare | TeamDmgShare | TeamDestShare
    | SurvivalRate | TankEfficiency | CostEfficiency | DlRatio | DamageTrade
    | RefundRate | TotalRefunded
    | UniqueUnits | SupplyFromAllies | SupplyToAllies
    | ObjectivesCaptured | SupplyCaptured | BuildingsDestroyed
    | DestructionScore | FirepowerROI | DamageDealt

  function Get(m: DerivedMetrics, k: MetricKey): real
  {
    match k
    case TeamLossShare => m.teamLossShare
    case TeamDmgShare => m.teamDmgShare
    case TeamDestShare => m.teamDestShare
    case SurvivalRate => m.survivalRate
    case TankEfficiency => m.tankEfficiency
    case CostEfficiency => m.costEfficiency
    case DlRatio => m.dlRatio
    case DamageTrade => m.damageTrade
    case RefundRate => m.refundRate
    case TotalRefunded => m.totalRefunded
    case UniqueUnits => m.uniqueUnits
    case SupplyFromAllies => m.supplyFromAllies
    case SupplyToAllies => m.supplyToAllies
    case ObjectivesCaptured => m.objectivesCaptured
    case SupplyCaptured => m.supplyCaptured
    case BuildingsDestroyed => m.buildingsDestroyed
    case DestructionScore => m.destructionScore
    case FirepowerROI => m.firepowerROI
    case DamageDealt => m.damageDealt
  }

  /** The metrics each category averages (analyzer.js:223-263). */
  function CategoryMetrics(c: Category): (ks: seq<MetricKey>)
    ensures |ks| > 0
  {
    match c
    case Battlefield => [TeamLossShare, TeamDmgShare, TeamDestShare]
    case Combat => [SurvivalRate, TankEfficiency, CostEfficiency, DlRatio, DamageTrade]
    case Economy => [RefundRate, TotalRefunded]
    case Teamwork => [UniqueUnits, SupplyFromAllies, SupplyToAllies]
    case Strategy => [ObjectivesCaptured, SupplyCaptured, BuildingsDestroyed]
    case Firepower => [DestructionScore, FirepowerROI, DamageDealt]
  }

  /** `allMetrics.map((m) => m[key])`. */
  function Population(all: seq<DerivedMetrics>, k: MetricKey): (xs: seq<real>)
    ensures |xs| == |all|
    ensures forall i :: 0 <= i < |all| ==> xs[i] == Get(all[i], k)
  {
    seq(|all|, i requires 0 <= i < |all| => Get(all[i], k))
  }

  function SumPercentiles(all: seq<DerivedMetrics>, me: DerivedMetrics, ks: seq<MetricKey>): (r: real)
    ensures 0.0 <= r <= 100.0 * |ks| as real
  {
    if ks == [] then 0.0
    else Percentile(Get(me, ks[0]), Population(all, ks[0])) + SumPercentiles(all, me, ks[1..])
  }

  /** Mean percentile of the target over a category's metrics, the whole
      match being the reference population. */
  function CategoryScore(all: seq<DerivedMetrics>, me: DerivedMetrics, c: Category): (r: real)
    ensures 0.0 <= r <= 100.0
  {
    var ks := CategoryMetrics(c);
    var n := |ks| as real;
    var sum := SumPercentiles(all, me, ks);
    DivNonNegative(sum, n);
    DivMonotone(sum, 100.0 * n, n);
    sum / n
  }

  function ScoreCategories(all: seq<DerivedMetrics>, me: DerivedMetrics): (s: Scores)
    ensures InRange(s)
    ensures forall c :: ScoreOf(s, c) == CategoryScore(all, me, c)
  {
    Scores(CategoryScore(all, me, Battlefield), CategoryScore(all, me, Combat),
           CategoryScore(all, me, Economy), CategoryScore(all, me, Teamwork),
           CategoryScore(all, me, Strategy), CategoryScore(all, me, Firepower))
  }

  /** 100 for a win, 50 for a draw, 0 otherwise. */
  function WinScore(isWin: bool, isDraw: bool): (r: real)
    ensures isWin ==> r == 100.0
    ensures !isWin && isDraw ==> r == 50.0
    ensures !isWin && !isDraw ==> r == 0.0
  {
    if isWin then 100.0 else if isDraw then 50.0 else 0.0
  }

  function WeightedWcs(s: Scores, w: Weights, winScore: real): real
  {
    w.battlefield * s.battlefield + w.combat * s.combat + w.economy * s.economy
    + w.teamwork * s.teamwork + w.strategy * s.strategy + w.firepower * s.firepower
    + w.winBonus * winScore
  }

  /** Each term `w * x` lies between 0 and `w * 100`. */
  lemma ScaledBound(w: real, x: real) returns (p: real)
    requires w >= 0.0 && 0.0 <= x <= 100.0
    ensures p == w * x
    ensures 0.0 <= p <= w * 100.0
  {
    MulNonNegative(w, x);
    MulNonNegative(w, 100.0 - x);
    p := w * x;
  }

  /** With non-negative weights summing to 1, the match WCS is a weighted
      mean of values in [0, 100] and so stays in [0, 100]. */
  lemma WeightedWcsBounds(s: Scores, w: Weights, winScore: real)
    requires InRange(s) && IsConvex(w) && 0.0 <= winScore <= 100.0
    ensures 0.0 <= WeightedWcs(s, w, winScore) <= 100.0
  {
    assert 0.0 <= ScoreOf(s, Battlefield) <= 100.0 && 0.0 <= ScoreOf(s, Combat) <= 100.0;
    assert 0.0 <= ScoreOf(s, Economy) <= 100.0 && 0.0 <= ScoreOf(s, Teamwork) <= 100.0;
    assert 0.0 <= ScoreOf(s, Strategy) <= 100.0 && 0.0 <= ScoreOf(s, Firepower) <= 100.0;
    var a := ScaledBound(w.battlefield, s.battlefield);
    var b := ScaledBound(w.combat, s.combat);
    var c := ScaledBound(w.economy, s.economy);
    var d := ScaledBound(w.teamwork, s.teamwork);
    var e := ScaledBound(w.strategy, s.strategy);
    var f := ScaledBound(w.firepower, s.firepower);
    var g := ScaledBound(w.winBonus, winScore);
    assert WeightedWcs(s, w, winScore) == a + b + c + d + e + f + g;
    assert a + b + c + d + e + f + g <= 100.0 * WeightSum(w);
  }

  datatype MatchScore = MatchScore(categories: Scores, wcs: real)

  /** The target's category scores and match WCS; all 50 when the target is
      not among the match's metrics. */
  function ScoreMatch(all: seq<DerivedMetrics>, me: Option<DerivedMetrics>, isWin: bool, isDraw: bool): (r: MatchScore)
    ensures me.None? ==> r == MatchScore(Neutral, 50.0)
    ensures InRange(r.categories)
    ensures 0.0 <= r.wcs <= 100.0
  {
    if me.None? then MatchScore(Neutral, 50.0)
    else
      var s := ScoreCategories(all, me.value);
      WcsWeightsConvex();
      WeightedWcsBounds(s, WcsWeights, WinScore(isWin, isDraw));
      MatchScore(s, WeightedWcs(s, WcsWeights, WinScore(isWin, isDraw)))
  }
}
