/** The fixed configuration the analyser reads (src/config.js). */
module Config {
  import opened Optional

  /** Number of valid matches one analysis is built from. */
  const MatchGoal: nat := 12
  /** Smallest roster a match must have to enter a batch. */
  const MinPlayers: nat := 10

  /** Base URL of the direct match-data service. */
  const BatraceBase: string := "https://batrace.aoeiaol.top/api/v1"

  /** One weight per WCS category plus the win bonus. */
  datatype Weights = Weights(
    battlefield: real, combat: real, firepower: real, teamwork: real,
    economy: real, strategy: real, winBonus: real)

  const WcsWeights: Weights := Weights(0.25, 0.20, 0.14, 0.11, 0.09, 0.06, 0.15)

  function WeightSum(w: Weights): real
  {
    w.battlefield + w.combat + w.firepower + w.teamwork + w.economy + w.strategy + w.winBonus
  }

  /** Non-negative weights summing to 1: a weighted mean of the categories. */
  predicate IsConvex(w: Weights)
  {
    && w.battlefield >= 0.0 && w.combat >= 0.0 && w.firepower >= 0.0
    && w.teamwork >= 0.0 && w.economy >= 0.0 && w.strategy >= 0.0 && w.winBonus >= 0.0
    && WeightSum(w) == 1.0
  }

  lemma WcsWeightsConvex()
    ensures IsConvex(WcsWeights)
  {
  }

  datatype Level = Legendary | Elite | Good | Average | Below | Poor

  datatype LevelDef = LevelDef(min: real, key: Level)

  /** Levels by descending threshold; the first one the score reaches applies. */
  const WcsLevels: seq<LevelDef> := [
    LevelDef(80.0, Legendary), LevelDef(65.0, Elite), LevelDef(50.0, Good),
    LevelDef(35.0, Average), LevelDef(20.0, Below), LevelDef(0.0, Poor)
  ]

  ghost predicate StrictlyDescending(levels: seq<LevelDef>)
  {
    forall i, j :: 0 <= i < j < |levels| ==> levels[i].min > levels[j].min
  }

  lemma WcsLevelsDescending()
    ensures StrictlyDescending(WcsLevels)
    ensures WcsLevels[|WcsLevels| - 1].min == 0.0
  {
  }

  /** `levels.find((l) => wcs >= l.min)`. */
  function FindLevel(levels: seq<LevelDef>, wcs: real): (r: Option<nat>)
    ensures r.Some? ==> r.value < |levels| && wcs >= levels[r.value].min
    ensures r.Some? ==> forall j :: 0 <= j < r.value ==> wcs < levels[j].min
    ensures r.None? <==> forall j :: 0 <= j < |levels| ==> wcs < levels[j].min
  {
    if levels == [] then None
    else if wcs >= levels[0].min then Some(0)
    else match FindLevel(levels[1..], wcs)
      case None => None
      case Some(i) => Some(i + 1)
  }

  /** The level of an aggregate score; the last level when none applies. */
  function LevelOf(wcs: real): Level
  {
    match FindLevel(WcsLevels, wcs)
    case Some(i) => WcsLevels[i].key
    case None => WcsLevels[|WcsLevels| - 1].key
  }

  /** With strictly descending thresholds, the first threshold reached is the
      largest threshold not above the score. */
  lemma {:induction false} FirstReachedIsLargest(levels: seq<LevelDef>, wcs: real, i: nat)
    requires StrictlyDescending(levels)
    requires FindLevel(levels, wcs) == Some(i)
    ensures forall j :: 0 <= j < |levels| && levels[j].min <= wcs ==> levels[j].min <= levels[i].min
  {
  }

  /** Every non-negative score gets the level with the largest threshold it
      reaches; negative scores fall back to the last level. */
  lemma LevelOfIsLargestReached(wcs: real)
    ensures 0.0 <= wcs ==>
      exists i :: 0 <= i < |WcsLevels|
        && LevelOf(wcs) == WcsLevels[i].key && WcsLevels[i].min <= wcs
        && (forall j :: 0 <= j < |WcsLevels| && WcsLevels[j].min <= wcs ==> WcsLevels[j].min <= WcsLevels[i].min)
    ensures wcs < 0.0 ==> LevelOf(wcs) == Poor
  {
    WcsLevelsDescending();
    if 0.0 <= wcs {
      var r := FindLevel(WcsLevels, wcs);
      assert WcsLevels[5].min <= wcs;
      var i := r.value;
      FirstReachedIsLargest(WcsLevels, wcs, i);
    }
  }
}
