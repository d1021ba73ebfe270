/** The match records the analyser consumes, as delivered by the match-data
    service. JavaScript objects become sequences in their iteration order;
    numeric counters are reals with a missing counter already read as 0 (the
    source reads every counter as `field || 0`). */
module Records {
  import opened Optional

  /** `WinnerTeam` value that marks a drawn match. */
  const DrawTeam: int := 101

  /** One unit instance's totals. `typeId` 0 stands for a missing (falsy) id. */
  datatype UnitRecord = UnitRecord(
    typeId: nat,
    damageDealt: real,
    damageReceived: real,
    kills: real,
    buildingsDestroyed: real,
    selfDamage: real)

  /** One participant of a match. An empty `id` or `name` is a missing
      (falsy) one; `dlRatio` 0 is a missing ratio. `destruction` and
      `losses` are the record's raw `Destruction` and `Losses` keys, which
      the medal table reads; they are distinct from the `DestructionScore`
      and `LossesScore` counters every other computation reads, and are 0
      when the record does not carry them. */
  datatype Participant = Participant(
    id: string,
    name: string,
    teamId: Option<int>,
    oldRating: Option<real>,
    newRating: Option<real>,
    destructionScore: real,
    lossesScore: real,
    damageDealt: real,
    damageReceived: real,
    objectivesCaptured: real,
    supplyCaptured: real,
    supplyConsumed: real,
    supplyFromAllies: real,
    supplyByAllies: real,
    totalSpawned: real,
    totalRefunded: real,
    dlRatio: real,
    destruction: real,
    losses: real,
    units: seq<UnitRecord>)

  /** One match: `data` lists the participant map's entries in iteration order. */
  datatype MatchRecord = MatchRecord(
    id: string,
    winnerTeam: Option<int>,
    endReason: int,
    endTime: int,
    mapId: int,
    duration: int,
    data: seq<(string, Participant)>)

  /** The raw keys the medals are awarded on, named as in the record. */
  datatype Stat =
    | Destruction | Losses | DamageDealt | DamageReceived | SupplyPointsConsumed
    | SupplyPointsConsumedFromAllies | SupplyPointsConsumedByAllies
    | TotalSpawnedUnitScore | TotalRefundedUnitScore

  function StatOf(p: Participant, s: Stat): (r: real)
    ensures NonNegative(p) ==> r >= 0.0
  {
    match s
    case Destruction => p.destruction
    case Losses => p.losses
    case DamageDealt => p.damageDealt
    case DamageReceived => p.damageReceived
    case SupplyPointsConsumed => p.supplyConsumed
    case SupplyPointsConsumedFromAllies => p.supplyFromAllies
    case SupplyPointsConsumedByAllies => p.supplyByAllies
    case TotalSpawnedUnitScore => p.totalSpawned
    case TotalRefundedUnitScore => p.totalRefunded
  }

  predicate UnitNonNegative(u: UnitRecord)
  {
    u.damageDealt >= 0.0 && u.damageReceived >= 0.0 && u.kills >= 0.0
    && u.buildingsDestroyed >= 0.0 && u.selfDamage >= 0.0
  }

  /** All counters are non-negative, as the game reports them. */
  predicate NonNegative(p: Participant)
  {
    && p.destructionScore >= 0.0 && p.lossesScore >= 0.0
    && p.damageDealt >= 0.0 && p.damageReceived >= 0.0
    && p.objectivesCaptured >= 0.0 && p.supplyCaptured >= 0.0 && p.supplyConsumed >= 0.0
    && p.supplyFromAllies >= 0.0 && p.supplyByAllies >= 0.0
    && p.totalSpawned >= 0.0 && p.totalRefunded >= 0.0 && p.dlRatio >= 0.0
    && p.destruction >= 0.0 && p.losses >= 0.0
    && forall i :: 0 <= i < |p.units| ==> UnitNonNegative(p.units[i])
  }

  /** The participants of a match in iteration order. */
  function Participants(data: seq<(string, Participant)>): (ps: seq<Participant>)
    ensures |ps| == |data|
    ensures forall i :: 0 <= i < |data| ==> ps[i] == data[i].1
  {
    seq(|data|, i requires 0 <= i < |data| => data[i].1)
  }

  /** `Data[key]`: the entry with that key, if any. */
  function Lookup(data: seq<(string, Participant)>, key: string): (r: Option<Participant>)
    ensures r.Some? ==> exists i :: 0 <= i < |data| && data[i].0 == key && data[i].1 == r.value
    ensures r.None? ==> forall i :: 0 <= i < |data| ==> data[i].0 != key
  {
    if data == [] then None
    else if data[0].0 == key then Some(data[0].1)
    else
      var r := Lookup(data[1..], key);
      if r.Some? then
        ghost var i :| 0 <= i < |data[1..]| && data[1..][i].0 == key && data[1..][i].1 == r.value;
        assert data[i + 1] == data[1..][i];
        r
      else r
  }
}
