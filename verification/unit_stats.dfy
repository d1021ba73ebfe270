/** Per-type aggregation of a participant's unit records and the choice of
    favourite units (analyzer.js:31-60 and 455-484).

    The source accumulates per-type totals in an object keyed by the numeric
    type id. Integer-like keys of a JavaScript object iterate in ascending
    numeric order, so that object is modelled as an association list kept
    strictly ascending by type id. */
module UnitStats {
  import opened Optional
  import opened Records
  import Sorting

  /** Summed totals of one unit type: damage dealt, kills, damage received. */
  datatype TypeTotals = TypeTotals(typeId: nat, d: real, k: real, t: real)

  /** The three axes a favourite unit is chosen on. */
  datatype Axis = Damage | Kills | Tank

  function AxisValue(e: TypeTotals, a: Axis): real
  {
    match a
    case Damage => e.d
    case Kills => e.k
    case Tank => e.t
  }

  /** The sort key of one axis, as a function value. */
  function KeyOf(a: Axis): TypeTotals -> real
  {
    (e: TypeTotals) => AxisValue(e, a)
  }

  /** A favourite unit: its type and its summed value on one axis. The
      source's sentinel `{id: 0, v: -1}` is `None`. */
  datatype Favourite = Favourite(typeId: nat, value: real)

  ghost predicate Ascending(agg: seq<TypeTotals>)
  {
    forall i, j :: 0 <= i < j < |agg| ==> agg[i].typeId < agg[j].typeId
  }

  /** The entry of `agg` for type `id`, if any. */
  function Find(agg: seq<TypeTotals>, id: nat): (r: Option<TypeTotals>)
    ensures r.Some? ==> r.value.typeId == id && exists i :: 0 <= i < |agg| && agg[i] == r.value
    ensures r.None? ==> forall i :: 0 <= i < |agg| ==> agg[i].typeId != id
  {
    if agg == [] then None
    else if agg[0].typeId == id then Some(agg[0])
    else
      var r := Find(agg[1..], id);
      if r.Some? then
        ghost var i :| 0 <= i < |agg[1..]| && agg[1..][i] == r.value;
        assert agg[i + 1] == r.value;
        r
      else r
  }

  lemma {:induction false} FindAscending(agg: seq<TypeTotals>, j: nat)
    requires Ascending(agg) && j < |agg|
    ensures Find(agg, agg[j].typeId) == Some(agg[j])
  {
    if j > 0 {
      assert agg[0].typeId < agg[j].typeId;
      assert agg[1..][j - 1] == agg[j];
      FindAscending(agg[1..], j - 1);
    }
  }

  function Zero(id: nat): TypeTotals
  {
    TypeTotals(id, 0.0, 0.0, 0.0)
  }

  /** Adds one unit record to a type's totals. */
  function AddUnit(e: TypeTotals, u: UnitRecord): TypeTotals
  {
    e.(d := e.d + u.damageDealt, k := e.k + u.kills, t := e.t + u.damageReceived)
  }

  function OrZero(r: Option<TypeTotals>, id: nat): TypeTotals
  {
    if r.Some? then r.value else Zero(id)
  }

  /** `agg[u.Id] ??= {0, 0, 0}; agg[u.Id] += u`, keeping the keys ascending. */
  function Upsert(agg: seq<TypeTotals>, u: UnitRecord): (r: seq<TypeTotals>)
    requires Ascending(agg)
    ensures Ascending(r)
    ensures forall i :: 0 <= i < |r| ==> r[i].typeId == u.typeId || exists j :: 0 <= j < |agg| && agg[j].typeId == r[i].typeId
  {
    if agg == [] then [AddUnit(Zero(u.typeId), u)]
    else if agg[0].typeId == u.typeId then [AddUnit(agg[0], u)] + agg[1..]
    else if agg[0].typeId > u.typeId then [AddUnit(Zero(u.typeId), u)] + agg
    else
      var rest := Upsert(agg[1..], u);
      assert forall i :: 0 <= i < |rest| ==> rest[i].typeId > agg[0].typeId by {
        forall i | 0 <= i < |rest| ensures rest[i].typeId > agg[0].typeId {
          if rest[i].typeId != u.typeId {
            var j :| 0 <= j < |agg[1..]| && agg[1..][j].typeId == rest[i].typeId;
            assert agg[j + 1] == agg[1..][j];
          }
        }
      }
      [agg[0]] + rest
  }

  /** Upserting changes exactly the entry of the unit's type. */
  lemma {:induction false} UpsertFind(agg: seq<TypeTotals>, u: UnitRecord, id: nat)
    requires Ascending(agg)
    ensures Find(Upsert(agg, u), id)
            == if id == u.typeId then Some(AddUnit(OrZero(Find(agg, id), id), u)) else Find(agg, id)
  {
    if agg == [] {
    } else if agg[0].typeId == u.typeId {
      assert (Upsert(agg, u))[1..] == agg[1..];
    } else if agg[0].typeId > u.typeId {
      var r := Upsert(agg, u);
      assert r[1..] == agg;
      if id == u.typeId {
        forall i | 0 <= i < |agg| ensures agg[i].typeId != id {
          assert agg[0].typeId <= agg[i].typeId;
        }
      }
    } else {
      UpsertFind(agg[1..], u, id);
      assert Upsert(agg, u)[1..] == Upsert(agg[1..], u);
    }
  }

  /** The type ids of the records with a (truthy) id. */
  function TypeIds(units: seq<UnitRecord>): set<nat>
  {
    if units == [] then {}
    else
      var last := units[|units| - 1];
      TypeIds(units[..|units| - 1]) + (if last.typeId != 0 then {last.typeId} else {})
  }

  /** Reference totals of type `id`: the sum over its records. */
  function TypeTotal(units: seq<UnitRecord>, id: nat): TypeTotals
  {
    if units == [] then Zero(id)
    else
      var last := units[|units| - 1];
      var r := TypeTotal(units[..|units| - 1], id);
      if last.typeId == id then AddUnit(r, last) else r
  }

  /** The per-type table built by the loop over the records (analyzer.js:41-51). */
  function Aggregate(units: seq<UnitRecord>): (agg: seq<TypeTotals>)
    ensures Ascending(agg)
  {
    if units == [] then []
    else
      var a := Aggregate(units[..|units| - 1]);
      var last := units[|units| - 1];
      if last.typeId == 0 then a else Upsert(a, last)
  }

  /** The table holds exactly one entry per type id, carrying that type's sums. */
  lemma {:induction false} AggregateTotals(units: seq<UnitRecord>, id: nat)
    requires id != 0
    ensures Find(Aggregate(units), id) == if id in TypeIds(units) then Some(TypeTotal(units, id)) else None
  {
    if units != [] {
      var init := units[..|units| - 1];
      var last := units[|units| - 1];
      AggregateTotals(init, id);
      if last.typeId != 0 {
        UpsertFind(Aggregate(init), last, id);
        if id !in TypeIds(init) {
          AbsentTypeTotal(init, id);
        }
      }
    }
  }

  lemma {:induction false} AbsentTypeTotal(units: seq<UnitRecord>, id: nat)
    requires id != 0 && id !in TypeIds(units)
    ensures TypeTotal(units, id) == Zero(id)
  {
    if units != [] {
      AbsentTypeTotal(units[..|units| - 1], id);
    }
  }

  /** The favourite scan (analyzer.js:53-57): keep the current best unless a
      later type has a strictly larger value; the start value is -1. */
  function Top(agg: seq<TypeTotals>, a: Axis): (r: Option<Favourite>)
    ensures r.Some? ==> exists j :: 0 <= j < |agg| && r.value == Favourite(agg[j].typeId, AxisValue(agg[j], a))
  {
    if agg == [] then None
    else
      var cur := Top(agg[..|agg| - 1], a);
      var e := agg[|agg| - 1];
      var best := if cur.Some? then cur.value.value else -1.0;
      if AxisValue(e, a) > best then Some(Favourite(e.typeId, AxisValue(e, a))) else cur
  }

  /** With values above the sentinel, the scan picks the first maximum. */
  lemma {:induction false} TopIsFirstMax(agg: seq<TypeTotals>, a: Axis)
    requires |agg| > 0
    requires forall i :: 0 <= i < |agg| ==> AxisValue(agg[i], a) > -1.0
    ensures var i := Sorting.FirstMaxIndex(agg, KeyOf(a));
            Top(agg, a) == Some(Favourite(agg[i].typeId, AxisValue(agg[i], a)))
  {
    if |agg| > 1 {
      var init := agg[..|agg| - 1];
      TopIsFirstMax(init, a);
      var k := Sorting.FirstMaxIndex(init, KeyOf(a));
      assert init[k] == agg[k];
    }
  }

  /** Declarative favourite on one axis: a type present among the records,
      whose sum is maximal, and strictly larger than that of every type with
      a smaller id (those come first in iteration order). */
  ghost predicate IsFavourite(units: seq<UnitRecord>, a: Axis, f: Favourite)
  {
    && f.typeId in TypeIds(units)
    && f.value == AxisValue(TypeTotal(units, f.typeId), a)
    && forall id :: id in TypeIds(units) ==>
         AxisValue(TypeTotal(units, id), a) <= f.value
         && (id < f.typeId ==> AxisValue(TypeTotal(units, id), a) < f.value)
  }

  ghost predicate AllNonNegative(units: seq<UnitRecord>)
  {
    forall i :: 0 <= i < |units| ==> UnitNonNegative(units[i])
  }

  lemma {:induction false} TypeTotalNonNegative(units: seq<UnitRecord>, id: nat)
    requires AllNonNegative(units)
    ensures TypeTotal(units, id).d >= 0.0 && TypeTotal(units, id).k >= 0.0 && TypeTotal(units, id).t >= 0.0
  {
    if units != [] {
      TypeTotalNonNegative(units[..|units| - 1], id);
    }
  }

  lemma TypeIdsNonZero(units: seq<UnitRecord>)
    ensures 0 !in TypeIds(units)
  {
  }

  /** Every entry of the table is the reference total of its type. */
  lemma TableEntries(units: seq<UnitRecord>, j: nat)
    requires j < |Aggregate(units)|
    ensures Aggregate(units)[j].typeId in TypeIds(units)
    ensures Aggregate(units)[j] == TypeTotal(units, Aggregate(units)[j].typeId)
  {
    var agg := Aggregate(units);
    FindAscending(agg, j);
    if agg[j].typeId == 0 {
      NoZeroEntry(units);
    }
    AggregateTotals(units, agg[j].typeId);
  }

  lemma {:induction false} NoZeroEntry(units: seq<UnitRecord>)
    ensures forall j :: 0 <= j < |Aggregate(units)| ==> Aggregate(units)[j].typeId != 0
  {
    if units != [] {
      var init := units[..|units| - 1];
      NoZeroEntry(init);
    }
  }

  /** The first maximum of the table is the declarative favourite. */
  lemma FirstMaxIsFavourite(units: seq<UnitRecord>, a: Axis)
    requires |Aggregate(units)| > 0
    ensures var agg := Aggregate(units);
            var i := Sorting.FirstMaxIndex(agg, KeyOf(a));
            IsFavourite(units, a, Favourite(agg[i].typeId, AxisValue(agg[i], a)))
  {
    var agg := Aggregate(units);
    var i := Sorting.FirstMaxIndex(agg, KeyOf(a));
    TableEntries(units, i);
    forall id | id in TypeIds(units)
      ensures AxisValue(TypeTotal(units, id), a) <= AxisValue(agg[i], a)
      ensures id < agg[i].typeId ==> AxisValue(TypeTotal(units, id), a) < AxisValue(agg[i], a)
    {
      TypeIdsNonZero(units);
      AggregateTotals(units, id);
      var j :| 0 <= j < |agg| && agg[j] == TypeTotal(units, id);
      assert KeyOf(a)(agg[j]) <= KeyOf(a)(agg[i]);
      if id < agg[i].typeId {
        assert j < i;
        assert KeyOf(a)(agg[j]) < KeyOf(a)(agg[i]);
      }
    }
  }

  /** Everything the source derives from one participant's unit records. */
  datatype UnitSummary = UnitSummary(
    buildingsDestroyed: real,
    selfDamage: real,
    unitTypes: set<nat>,
    topD: Option<Favourite>,
    topK: Option<Favourite>,
    topT: Option<Favourite>)

  /** Sum of buildings destroyed over records with a type id. */
  function Buildings(units: seq<UnitRecord>): real
  {
    if units == [] then 0.0
    else (if units[0].typeId != 0 then units[0].buildingsDestroyed else 0.0) + Buildings(units[1..])
  }

  /** Sum of self-inflicted damage over records with a type id. */
  function SelfDamage(units: seq<UnitRecord>): real
  {
    if units == [] then 0.0
    else (if units[0].typeId != 0 then units[0].selfDamage else 0.0) + SelfDamage(units[1..])
  }

  /** `extractUnitStats(unitData)`: the sums over typed records, the set of
      type ids, and the favourite on each axis. */
  function ExtractUnitStats(units: seq<UnitRecord>): (r: UnitSummary)
    ensures r.topD.Some? ==> exists e :: e in Aggregate(units) && r.topD.value == Favourite(e.typeId, e.d)
    ensures r.topK.Some? ==> exists e :: e in Aggregate(units) && r.topK.value == Favourite(e.typeId, e.k)
    ensures r.topT.Some? ==> exists e :: e in Aggregate(units) && r.topT.value == Favourite(e.typeId, e.t)
  {
    var agg := Aggregate(units);
    UnitSummary(Buildings(units), SelfDamage(units), TypeIds(units),
                Top(agg, Damage), Top(agg, Kills), Top(agg, Tank))
  }

  /** For non-negative records, each favourite is absent exactly when no record
      has a type id, and otherwise is the first maximal type on its axis. */
  lemma ExtractFavourites(units: seq<UnitRecord>, a: Axis)
    requires AllNonNegative(units)
    ensures var s := ExtractUnitStats(units);
            var f := match a case Damage => s.topD case Kills => s.topK case Tank => s.topT;
            (f.None? <==> s.unitTypes == {}) && (f.Some? ==> IsFavourite(units, a, f.value))
  {
    var agg := Aggregate(units);
    if |agg| == 0 {
      forall id | id in TypeIds(units) ensures false {
        TypeIdsNonZero(units);
        AggregateTotals(units, id);
      }
    } else {
      forall j | 0 <= j < |agg| ensures AxisValue(agg[j], a) > -1.0 {
        TableEntries(units, j);
        TypeTotalNonNegative(units, agg[j].typeId);
      }
      TopIsFirstMax(agg, a);
      FirstMaxIsFavourite(units, a);
    }
  }

  /** All unit records of the target across a batch, in visiting order:
      `Data[uid].UnitData` of each match (analyzer.js:458-474). */
  function TargetUnits(matches: seq<MatchRecord>, uid: string): seq<UnitRecord>
  {
    if matches == [] then []
    else
      var mine := Lookup(matches[0].data, uid);
      (if mine.Some? then mine.value.units else []) + TargetUnits(matches[1..], uid)
  }

  datatype FavouriteUnits = FavouriteUnits(topDmg: TypeTotals, topKill: TypeTotals, topTank: TypeTotals)

  /** Sorting keeps the entries, so the head of a sorted table is one of them. */
  lemma HeadInTable(arr: seq<TypeTotals>, a: Axis)
    requires |arr| > 0
    ensures |Sorting.SortDesc(arr, KeyOf(a))| == |arr|
    ensures Sorting.SortDesc(arr, KeyOf(a))[0] in arr
  {
    var s := Sorting.SortDesc(arr, KeyOf(a));
    assert s[0] in multiset(s);
  }

  /** Batch-wide favourite units: the head of a stable descending sort of the
      per-type table on each axis; `None` when the target fielded no units. */
  function CalculateFavoriteUnits(matches: seq<MatchRecord>, uid: string): (r: Option<FavouriteUnits>)
    ensures var agg := Aggregate(TargetUnits(matches, uid));
            r.Some? ==> r.value.topDmg in agg && r.value.topKill in agg && r.value.topTank in agg
  {
    var arr := Aggregate(TargetUnits(matches, uid));
    if |arr| == 0 then None
    else
      HeadInTable(arr, Damage);
      HeadInTable(arr, Kills);
      HeadInTable(arr, Tank);
      Some(FavouriteUnits(Sorting.SortDesc(arr, KeyOf(Damage))[0],
                             Sorting.SortDesc(arr, KeyOf(Kills))[0],
                             Sorting.SortDesc(arr, KeyOf(Tank))[0]))
  }

  /** The batch-wide choice follows the same rule as the per-match one: on
      every axis it is the first maximal type, with its summed totals. */
  lemma FavoriteUnitsRule(matches: seq<MatchRecord>, uid: string)
    ensures var units := TargetUnits(matches, uid);
            var r := CalculateFavoriteUnits(matches, uid);
            && (r.None? <==> TypeIds(units) == {})
            && (r.Some? ==>
                 && r.value.topDmg == TypeTotal(units, r.value.topDmg.typeId)
                 && r.value.topKill == TypeTotal(units, r.value.topKill.typeId)
                 && r.value.topTank == TypeTotal(units, r.value.topTank.typeId)
                 && IsFavourite(units, Damage, Favourite(r.value.topDmg.typeId, r.value.topDmg.d))
                 && IsFavourite(units, Kills, Favourite(r.value.topKill.typeId, r.value.topKill.k))
                 && IsFavourite(units, Tank, Favourite(r.value.topTank.typeId, r.value.topTank.t)))
  {
    var units := TargetUnits(matches, uid);
    var agg := Aggregate(units);
    if |agg| == 0 {
      forall id | id in TypeIds(units) ensures false {
        TypeIdsNonZero(units);
        AggregateTotals(units, id);
      }
    } else {
      assert TypeIds(units) != {} by { TableEntries(units, 0); }
      Sorting.SortHeadIsFirstMax(agg, KeyOf(Damage));
      Sorting.SortHeadIsFirstMax(agg, KeyOf(Kills));
      Sorting.SortHeadIsFirstMax(agg, KeyOf(Tank));
      FirstMaxIsFavourite(units, Damage);
      FirstMaxIsFavourite(units, Kills);
      FirstMaxIsFavourite(units, Tank);
      TableEntries(units, Sorting.FirstMaxIndex(agg, KeyOf(Damage)));
      TableEntries(units, Sorting.FirstMaxIndex(agg, KeyOf(Kills)));
      TableEntries(units, Sorting.FirstMaxIndex(agg, KeyOf(Tank)));
    }
  }
}
