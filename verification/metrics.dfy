/** Per-participant derived metrics of one match (analyzer.js:24-26, 140-206). */
module Metrics {
  import opened Optional
  import opened Records
  import opened Arith
  import Teams
  import UnitStats

  /** `b > 0 ? a / b : fallback`. */
  function SafeDivide(a: real, b: real, fallback: real): (r: real)
    ensures b > 0.0 ==> r * b == a
    ensures b <= 0.0 ==> r == fallback
    ensures a >= 0.0 && fallback >= 0.0 ==> r >= 0.0
  {
    if b > 0.0 then a / b else fallback
  }

  function Max(a: real, b: real): real
  {
    if a >= b then a else b
  }

  /** The four counters summed per side (analyzer.js:145-148). */
  datatype Counter = DamageCounter | DestructionCounter | LossCounter | SpawnCounter

  function CounterOf(p: Participant, c: Counter): real
  {
    match c
    case DamageCounter => p.damageDealt
    case DestructionCounter => p.destructionScore
    case LossCounter => p.lossesScore
    case SpawnCounter => p.totalSpawned
  }

  /** Sum of one counter over the participants on side `t`. */
  function TeamSum(ps: seq<Participant>, t: int, s: Counter): real
  {
    if ps == [] then 0.0
    else (if Teams.TeamOf(ps[0]) == t then CounterOf(ps[0], s) else 0.0) + TeamSum(ps[1..], t, s)
  }

  /** With non-negative counters, a participant's counter never exceeds its
      own side's total. */
  lemma {:induction false} MemberWithinTeamSum(ps: seq<Participant>, i: nat, s: Counter)
    requires i < |ps|
    requires forall j :: 0 <= j < |ps| ==> CounterOf(ps[j], s) >= 0.0
    ensures 0.0 <= CounterOf(ps[i], s) <= TeamSum(ps, Teams.TeamOf(ps[i]), s)
  {
    TeamSumNonNegative(ps[1..], Teams.TeamOf(ps[i]), s);
    if i > 0 {
      assert ps[1..][i - 1] == ps[i];
      MemberWithinTeamSum(ps[1..], i - 1, s);
    }
  }

  lemma {:induction false} TeamSumNonNegative(ps: seq<Participant>, t: int, s: Counter)
    requires forall j :: 0 <= j < |ps| ==> CounterOf(ps[j], s) >= 0.0
    ensures TeamSum(ps, t, s) >= 0.0
  {
    if ps != [] {
      TeamSumNonNegative(ps[1..], t, s);
    }
  }

  /** A side's totals (analyzer.js:140-150). */
  datatype Totals = Totals(dmg: real, dest: real, loss: real, spawn: real)

  function TeamTotals(ps: seq<Participant>, t: int): Totals
  {
    Totals(TeamSum(ps, t, DamageCounter), TeamSum(ps, t, DestructionCounter),
           TeamSum(ps, t, LossCounter), TeamSum(ps, t, SpawnCounter))
  }

  datatype DerivedMetrics = DerivedMetrics(
    id: string,
    teamId: int,
    teamLossShare: real,
    teamDmgShare: real,
    teamDestShare: real,
    dlRatio: real,
    survivalRate: real,
    damageTrade: real,
    costEfficiency: real,
    tankEfficiency: real,
    refundRate: real,
    totalRefunded: real,
    uniqueUnits: real,
    supplyFromAllies: real,
    supplyToAllies: real,
    objectivesCaptured: real,
    supplyCaptured: real,
    buildingsDestroyed: real,
    damageDealt: real,
    destructionScore: real,
    firepowerROI: real,
    netInvestment: real,
    selfDamage: real,
    topD: Option<UnitStats.Favourite>,
    topK: Option<UnitStats.Favourite>,
    topT: Option<UnitStats.Favourite>)

  /** Spawned minus refunded score, never below 1. */
  function NetInvestment(p: Participant): (r: real)
    ensures r >= 1.0
    ensures r >= p.totalSpawned - p.totalRefunded
    ensures r == 1.0 || r == p.totalSpawned - p.totalRefunded
  {
    Max(p.totalSpawned - p.totalRefunded, 1.0)
  }

  /** The metrics of one participant given its side's totals (analyzer.js:152-206). */
  function PlayerMetrics(p: Participant, tot: Totals): DerivedMetrics
  {
    var netInv := NetInvestment(p);
    var units := UnitStats.ExtractUnitStats(p.units);
    var lossShare := SafeDivide(p.lossesScore, Max(tot.loss, 1.0), 0.0);
    var trade := SafeDivide(p.damageDealt, Max(p.damageReceived, 1.0), 0.0);
    DerivedMetrics(
      p.id, Teams.TeamOf(p),
      lossShare,
      SafeDivide(p.damageDealt, Max(tot.dmg, 1.0), 0.0),
      SafeDivide(p.destructionScore, Max(tot.dest, 1.0), 0.0),
      if p.dlRatio != 0.0 then p.dlRatio else SafeDivide(p.destructionScore, Max(p.lossesScore, 1.0), 0.0),
      Max(0.0, 1.0 - SafeDivide(p.lossesScore, netInv, 0.0)),
      trade,
      SafeDivide(p.destructionScore, netInv, 0.0),
      lossShare * trade,
      SafeDivide(p.totalRefunded, Max(p.totalSpawned, 1.0), 0.0),
      p.totalRefunded,
      |units.unitTypes| as real,
      p.supplyFromAllies,
      p.supplyByAllies,
      p.objectivesCaptured,
      p.supplyCaptured,
      units.buildingsDestroyed,
      p.damageDealt,
      p.destructionScore,
      SafeDivide(p.damageDealt, netInv, 0.0),
      netInv,
      units.selfDamage,
      units.topD, units.topK, units.topT)
  }

  /** Metrics of every participant, in roster order. */
  function AllMetrics(ps: seq<Participant>): (ms: seq<DerivedMetrics>)
    ensures |ms| == |ps|
    ensures forall i :: 0 <= i < |ps| ==> ms[i].id == ps[i].id
  {
    var t0 := TeamTotals(ps, 0);
    var t1 := TeamTotals(ps, 1);
    seq(|ps|, i requires 0 <= i < |ps| => PlayerMetrics(ps[i], if Teams.TeamOf(ps[i]) == 1 then t1 else t0))
  }

  lemma {:induction false} BuildingsNonNegative(units: seq<UnitRecord>)
    requires forall i :: 0 <= i < |units| ==> UnitNonNegative(units[i])
    ensures UnitStats.Buildings(units) >= 0.0
  {
    if units != [] {
      BuildingsNonNegative(units[1..]);
    }
  }

  lemma ShareBound(a: real, total: real)
    requires 0.0 <= a <= total
    ensures 0.0 <= SafeDivide(a, Max(total, 1.0), 0.0) <= 1.0
  {
    DivAtMostOne(a, Max(total, 1.0));
  }

  ghost predicate Bounded(m: DerivedMetrics)
  {
    && m.netInvestment >= 1.0
    && 0.0 <= m.survivalRate <= 1.0
    && 0.0 <= m.teamLossShare <= 1.0
    && 0.0 <= m.teamDmgShare <= 1.0
    && 0.0 <= m.teamDestShare <= 1.0
    && m.dlRatio >= 0.0 && m.damageTrade >= 0.0 && m.costEfficiency >= 0.0
    && m.tankEfficiency >= 0.0 && m.refundRate >= 0.0 && m.firepowerROI >= 0.0
    && m.uniqueUnits >= 0.0 && m.buildingsDestroyed >= 0.0
  }

  lemma PlayerMetricsBounds(p: Participant, tot: Totals)
    requires NonNegative(p)
    requires p.lossesScore <= tot.loss && p.damageDealt <= tot.dmg && p.destructionScore <= tot.dest
    ensures Bounded(PlayerMetrics(p, tot))
  {
    SharesBounded(p, tot);
    SurvivalBounded(p, tot);
    RatiosNonNegative(p, tot);
    BuildingsNonNegative(p.units);
  }

  /** A participant's shares of its side's totals lie in [0, 1]. */
  lemma SharesBounded(p: Participant, tot: Totals)
    requires NonNegative(p)
    requires p.lossesScore <= tot.loss && p.damageDealt <= tot.dmg && p.destructionScore <= tot.dest
    ensures var m := PlayerMetrics(p, tot);
            && 0.0 <= m.teamLossShare <= 1.0
            && 0.0 <= m.teamDmgShare <= 1.0
            && 0.0 <= m.teamDestShare <= 1.0
  {
    ShareBound(p.lossesScore, tot.loss);
    ShareBound(p.damageDealt, tot.dmg);
    ShareBound(p.destructionScore, tot.dest);
  }

  lemma SurvivalBounded(p: Participant, tot: Totals)
    requires NonNegative(p)
    ensures var m := PlayerMetrics(p, tot);
            m.netInvestment >= 1.0 && 0.0 <= m.survivalRate <= 1.0
  {
    DivNonNegative(p.lossesScore, NetInvestment(p));
  }

  lemma RatiosNonNegative(p: Participant, tot: Totals)
    requires NonNegative(p)
    ensures var m := PlayerMetrics(p, tot);
            && m.dlRatio >= 0.0 && m.damageTrade >= 0.0 && m.costEfficiency >= 0.0
            && m.tankEfficiency >= 0.0 && m.refundRate >= 0.0 && m.firepowerROI >= 0.0
            && m.uniqueUnits >= 0.0
  {
    MulNonNegative(SafeDivide(p.lossesScore, Max(tot.loss, 1.0), 0.0),
                   SafeDivide(p.damageDealt, Max(p.damageReceived, 1.0), 0.0));
  }

  /** Bounds the metrics keep for non-negative counters: shares of one's own
      side and the survival rate lie in [0, 1], net investment is at least 1,
      and every metric used for scoring is non-negative. */
  lemma MetricsBounds(ps: seq<Participant>, i: nat)
    requires i < |ps|
    requires forall j :: 0 <= j < |ps| ==> NonNegative(ps[j])
    ensures Bounded(AllMetrics(ps)[i])
  {
    var p := ps[i];
    var t := Teams.TeamOf(p);
    MemberWithinTeamSum(ps, i, LossCounter);
    MemberWithinTeamSum(ps, i, DamageCounter);
    MemberWithinTeamSum(ps, i, DestructionCounter);
    PlayerMetricsBounds(p, TeamTotals(ps, t));
  }
}
