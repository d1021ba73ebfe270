/** Per-team superlative medals (src/engine/medals.js). */
module Medals {
  import opened Optional
  import opened Records
  import UnitStats

  /** The medal keys in award order (medals.js:7-17). */
  const MedalConfig: seq<Stat> := [
    Destruction, Losses, DamageDealt, DamageReceived, SupplyPointsConsumed,
    SupplyPointsConsumedFromAllies, SupplyPointsConsumedByAllies,
    TotalSpawnedUnitScore, TotalRefundedUnitScore
  ]

  /** An awarded medal: its key and the team maximum it was awarded for. */
  datatype Medal = Medal(key: Stat, val: real)

  datatype Favourites = Favourites(
    d: Option<UnitStats.Favourite>, k: Option<UnitStats.Favourite>, t: Option<UnitStats.Favourite>)

  /** One roster row as built for display (analyzer.js:303-327, without the
      purely presentational fields). */
  datatype RosterEntry = RosterEntry(
    id: string,
    name: string,
    isMe: bool,
    score: real,
    rawData: Participant,
    medals: seq<Medal>,
    favUnits: Favourites,
    selfDamage: real)

  /** `Math.max(...xs)`; `None` is the `-Infinity` of an empty list. */
  function MaxOf(xs: seq<real>): (r: Option<real>)
    ensures r.None? <==> xs == []
    ensures r.Some? ==> forall i :: 0 <= i < |xs| ==> xs[i] <= r.value
    ensures r.Some? ==> exists i :: 0 <= i < |xs| && xs[i] == r.value
  {
    if xs == [] then None
    else if |xs| == 1 then Some(xs[0])
    else
      var m := MaxOf(xs[1..]).value;
      ghost var j :| 0 <= j < |xs[1..]| && xs[1..][j] == m;
      assert xs[j + 1] == m;
      Some(if xs[0] >= m then xs[0] else m)
  }

  function Values(team: seq<RosterEntry>, k: Stat): (xs: seq<real>)
    ensures |xs| == |team|
    ensures forall i :: 0 <= i < |team| ==> xs[i] == StatOf(team[i].rawData, k)
  {
    seq(|team|, i requires 0 <= i < |team| => StatOf(team[i].rawData, k))
  }

  function TeamMax(team: seq<RosterEntry>, k: Stat): Option<real>
  {
    MaxOf(Values(team, k))
  }

  /** Player `i` holds the team maximum for `k`, and that maximum is positive. */
  predicate Earns(team: seq<RosterEntry>, i: nat, k: Stat)
    requires i < |team|
  {
    var m := TeamMax(team, k);
    m.Some? && m.value > 0.0 && StatOf(team[i].rawData, k) == m.value
  }

  /** One pass of the outer loop (medals.js:25-31). */
  function AwardKey(team: seq<RosterEntry>, k: Stat): (r: seq<RosterEntry>)
    ensures |r| == |team|
    ensures forall i :: 0 <= i < |team| ==> r[i].rawData == team[i].rawData
    ensures forall i :: 0 <= i < |team| ==> r[i] == team[i].(medals := r[i].medals) && team[i].medals <= r[i].medals
  {
    var m := TeamMax(team, k);
    if m.Some? && m.value > 0.0 then
      seq(|team|, i requires 0 <= i < |team| =>
        if StatOf(team[i].rawData, k) == m.value
        then team[i].(medals := team[i].medals + [Medal(k, m.value)])
        else team[i])
    else team
  }

  function AwardAll(team: seq<RosterEntry>, keys: seq<Stat>): (r: seq<RosterEntry>)
    ensures |r| == |team|
    ensures forall i :: 0 <= i < |team| ==> r[i] == team[i].(medals := r[i].medals) && team[i].medals <= r[i].medals
    decreases |keys|
  {
    if keys == [] then team else AwardAll(AwardKey(team, keys[0]), keys[1..])
  }

  /** `assignMedals(teamPlayers)`, returning the updated roster. */
  function AssignMedals(team: seq<RosterEntry>): (r: seq<RosterEntry>)
    ensures |r| == |team|
    ensures forall i :: 0 <= i < |team| ==> r[i] == team[i].(medals := r[i].medals) && team[i].medals <= r[i].medals
  {
    AwardAll(team, MedalConfig)
  }

  function Owed(team: seq<RosterEntry>, i: nat, k: Stat): seq<Medal>
    requires i < |team|
  {
    if Earns(team, i, k) then [Medal(k, TeamMax(team, k).value)] else []
  }

  /** Reference: the medals player `i` is owed for `keys`, in key order. */
  function Earned(team: seq<RosterEntry>, i: nat, keys: seq<Stat>): (r: seq<Medal>)
    requires i < |team|
  {
    if keys == [] then [] else Owed(team, i, keys[0]) + Earned(team, i, keys[1..])
  }

  /** Each owed medal is for a listed key the player earns, at the team maximum. */
  lemma {:induction false} EarnedSound(team: seq<RosterEntry>, i: nat, keys: seq<Stat>)
    requires i < |team|
    ensures |Earned(team, i, keys)| <= |keys|
    ensures var r := Earned(team, i, keys);
            forall j :: 0 <= j < |r| ==>
              r[j].key in keys && Earns(team, i, r[j].key) && r[j].val == TeamMax(team, r[j].key).value
  {
    if keys != [] {
      EarnedSound(team, i, keys[1..]);
    }
  }

  /** Every listed key the player earns yields a medal. */
  lemma {:induction false} EarnedComplete(team: seq<RosterEntry>, i: nat, keys: seq<Stat>, k: Stat)
    requires i < |team|
    requires k in keys && Earns(team, i, k)
    ensures exists j :: 0 <= j < |Earned(team, i, keys)| && Earned(team, i, keys)[j].key == k
  {
    var head: seq<Medal> := if Earns(team, i, keys[0]) then [Medal(keys[0], TeamMax(team, keys[0]).value)] else [];
    var rest := Earned(team, i, keys[1..]);
    assert Earned(team, i, keys) == head + rest;
    if k == keys[0] {
      assert (head + rest)[0].key == k;
    } else {
      EarnedComplete(team, i, keys[1..], k);
      var j :| 0 <= j < |rest| && rest[j].key == k;
      assert (head + rest)[|head| + j] == rest[j];
    }
  }

  lemma {:induction false} EarnedDistinct(team: seq<RosterEntry>, i: nat, keys: seq<Stat>)
    requires i < |team|
    requires forall a, b :: 0 <= a < b < |keys| ==> keys[a] != keys[b]
    ensures var r := Earned(team, i, keys);
            forall a, b :: 0 <= a < b < |r| ==> r[a].key != r[b].key
  {
    if keys != [] {
      EarnedDistinct(team, i, keys[1..]);
      EarnedSound(team, i, keys[1..]);
      assert keys[0] !in keys[1..] by {
        forall j | 0 <= j < |keys[1..]| ensures keys[1..][j] != keys[0] {
          assert keys[1..][j] == keys[j + 1];
        }
      }
    }
  }

  lemma {:induction false} SameRawSameEarned(a: seq<RosterEntry>, b: seq<RosterEntry>, i: nat, keys: seq<Stat>)
    requires |a| == |b| && i < |a|
    requires forall j :: 0 <= j < |a| ==> a[j].rawData == b[j].rawData
    ensures Earned(a, i, keys) == Earned(b, i, keys)
  {
    if keys != [] {
      assert Values(a, keys[0]) == Values(b, keys[0]);
      SameRawSameEarned(a, b, i, keys[1..]);
    }
  }

  lemma AwardKeyEntry(team: seq<RosterEntry>, k: Stat, i: nat)
    requires i < |team|
    ensures AwardKey(team, k)[i] == team[i].(medals := team[i].medals + Owed(team, i, k))
  {
  }

  lemma AppendTwice(x: RosterEntry, y: RosterEntry, z: RosterEntry, head: seq<Medal>, rest: seq<Medal>)
    requires y == x.(medals := x.medals + head)
    requires z == y.(medals := y.medals + rest)
    ensures z == x.(medals := x.medals + (head + rest))
  {
    assert x.medals + head + rest == x.medals + (head + rest);
  }

  /** Awarding over `keys` appends to each player exactly the medals it is owed. */
  lemma {:induction false} AwardAllSpec(team: seq<RosterEntry>, keys: seq<Stat>, i: nat)
    requires i < |team|
    ensures AwardAll(team, keys)[i] == team[i].(medals := team[i].medals + Earned(team, i, keys))
    decreases |keys|
  {
    if keys != [] {
      var t1 := AwardKey(team, keys[0]);
      AwardAllSpec(t1, keys[1..], i);
      SameRawSameEarned(t1, team, i, keys[1..]);
      AwardKeyEntry(team, keys[0], i);
      AppendTwice(team[i], t1[i], AwardAll(t1, keys[1..])[i], Owed(team, i, keys[0]), Earned(team, i, keys[1..]));
    }
  }

  /** `assignMedals` keeps the roster's length, order and everything but the
      medal lists; each list gains, after its old medals, the medals its
      player is owed. */
  lemma AssignMedalsSpec(team: seq<RosterEntry>, i: nat)
    requires i < |team|
    ensures AssignMedals(team)[i] == team[i].(medals := team[i].medals + Earned(team, i, MedalConfig))
  {
    AwardAllSpec(team, MedalConfig, i);
  }

  lemma InMedalConfig(k: Stat)
    ensures k in MedalConfig
  {
    match k
    case Destruction => assert MedalConfig[0] == k;
    case Losses => assert MedalConfig[1] == k;
    case DamageDealt => assert MedalConfig[2] == k;
    case DamageReceived => assert MedalConfig[3] == k;
    case SupplyPointsConsumed => assert MedalConfig[4] == k;
    case SupplyPointsConsumedFromAllies => assert MedalConfig[5] == k;
    case SupplyPointsConsumedByAllies => assert MedalConfig[6] == k;
    case TotalSpawnedUnitScore => assert MedalConfig[7] == k;
    case TotalRefundedUnitScore => assert MedalConfig[8] == k;
  }

  /** The nine medal keys are pairwise different. */
  lemma MedalConfigDistinct()
    ensures |MedalConfig| == 9
    ensures forall a, b :: 0 <= a < b < |MedalConfig| ==> MedalConfig[a] != MedalConfig[b]
  {
  }

  /** What one call owes a player: at most one medal per key (nine at most),
      a medal for `k` exactly when the player holds the team's positive
      maximum for `k`, each carrying that maximum. */
  lemma OwedMedals(team: seq<RosterEntry>, i: nat)
    requires i < |team|
    ensures var g := Earned(team, i, MedalConfig);
            && |g| <= 9
            && (forall a, b :: 0 <= a < b < |g| ==> g[a].key != g[b].key)
            && (forall k :: Earns(team, i, k) <==> exists j :: 0 <= j < |g| && g[j].key == k)
            && (forall j :: 0 <= j < |g| ==> g[j].val == TeamMax(team, g[j].key).value)
  {
    MedalConfigDistinct();
    EarnedSound(team, i, MedalConfig);
    EarnedDistinct(team, i, MedalConfig);
    forall k | Earns(team, i, k)
      ensures exists j :: 0 <= j < |Earned(team, i, MedalConfig)| && Earned(team, i, MedalConfig)[j].key == k
    {
      InMedalConfig(k);
      EarnedComplete(team, i, MedalConfig, k);
    }
  }

  /** Whenever a key's team maximum is positive someone holds it, so the
      medal is awarded; ties all hold it. An empty roster has no maximum. */
  lemma SomeoneEarns(team: seq<RosterEntry>, k: Stat)
    ensures TeamMax(team, k).None? <==> team == []
    ensures TeamMax(team, k).Some? && TeamMax(team, k).value > 0.0 ==>
      exists i :: 0 <= i < |team| && Earns(team, i, k)
  {
    if TeamMax(team, k).Some? && TeamMax(team, k).value > 0.0 {
      var i :| 0 <= i < |Values(team, k)| && Values(team, k)[i] == TeamMax(team, k).value;
      assert Earns(team, i, k);
    }
  }

  /** Raw `Destruction` values [100, 100, 50]: exactly the two tied leaders
      earn the Destruction medal. */
  lemma TiedLeadersExample(a: RosterEntry, b: RosterEntry, c: RosterEntry)
    requires a.rawData.destruction == 100.0 && b.rawData.destruction == 100.0
    requires c.rawData.destruction == 50.0
    ensures Earns([a, b, c], 0, Destruction) && Earns([a, b, c], 1, Destruction)
    ensures !Earns([a, b, c], 2, Destruction)
  {
    var xs := Values([a, b, c], Destruction);
    assert xs[0] == 100.0 && xs[1] == 100.0 && xs[2] == 50.0;
    assert TeamMax([a, b, c], Destruction) == Some(100.0);
  }

  /** The Destruction medal looks only at the raw `Destruction` key: rows
      that lack it earn no such medal, whatever their `DestructionScore`. */
  lemma NoRawDestructionNoMedal(team: seq<RosterEntry>, i: nat)
    requires i < |team|
    requires forall j :: 0 <= j < |team| ==> team[j].rawData.destruction == 0.0
    ensures !Earns(team, i, Destruction)
  {
    var xs := Values(team, Destruction);
    var m := MaxOf(xs);
    if m.Some? {
      var j :| 0 <= j < |xs| && xs[j] == m.value;
      assert xs[j] == team[j].rawData.destruction;
    }
  }
}
