/** The per-match rosters (analyzer.js:299-338): each side's participants
    mapped to display rows, sorted by score, then given their medals. */
module Roster {
  import opened Optional
  import opened Records
  import opened Sorting
  import opened Metrics
  import opened Medals

  /** A participant's roster score: net kill value in thousands plus
      objectives captured. */
  function Score(p: Participant): real
  {
    (p.destructionScore - p.lossesScore) / 1000.0 + p.objectivesCaptured
  }

  /** The metrics entry of the first participant whose id is `id`. */
  function FindMetrics(all: seq<DerivedMetrics>, id: string): (r: Option<DerivedMetrics>)
    ensures r.Some? ==> exists i :: 0 <= i < |all| && all[i] == r.value && r.value.id == id
                          && forall j :: 0 <= j < i ==> all[j].id != id
    ensures r.None? <==> forall j :: 0 <= j < |all| ==> all[j].id != id
  {
    if all == [] then None
    else if all[0].id == id then Some(all[0])
    else
      var r := FindMetrics(all[1..], id);
      if r.Some? then
        ghost var i :| 0 <= i < |all[1..]| && all[1..][i] == r.value && r.value.id == id
                       && forall j :: 0 <= j < i ==> all[1..][j].id != id;
        assert forall j :: 1 <= j < i + 1 ==> all[j] == all[1..][j - 1];
        r
      else r
  }

  const NoFavourites: Favourites := Favourites(None, None, None)

  /** `mapPlayer(p)` without the display-only fields. */
  function MapPlayer(p: Participant, all: seq<DerivedMetrics>, uid: string): (e: RosterEntry)
    ensures e.rawData == p && e.id == p.id && e.name == p.name && e.medals == []
    ensures e.isMe <==> p.id == uid
    ensures e.score == Score(p)
    ensures FindMetrics(all, p.id).None? ==> e.favUnits == NoFavourites && e.selfDamage == 0.0
    ensures FindMetrics(all, p.id).Some? ==>
              var m := FindMetrics(all, p.id).value;
              e.favUnits == Favourites(m.topD, m.topK, m.topT) && e.selfDamage == m.selfDamage
  {
    var m := FindMetrics(all, p.id);
    RosterEntry(
      p.id, p.name, p.id == uid, Score(p), p, [],
      if m.Some? then Favourites(m.value.topD, m.value.topK, m.value.topT) else NoFavourites,
      if m.Some? then m.value.selfDamage else 0.0)
  }

  /** The participants on team `myTeam` (`ally`) or on any other team, in
      their original order. */
  function Side(ps: seq<Participant>, myTeam: int, ally: bool): (r: seq<Participant>)
    ensures |r| <= |ps|
    ensures forall i :: 0 <= i < |r| ==> r[i] in ps && (r[i].teamId == Some(myTeam) <==> ally)
  {
    if ps == [] then []
    else
      var rest := Side(ps[1..], myTeam, ally);
      if (ps[0].teamId == Some(myTeam)) == ally then [ps[0]] + rest else rest
  }

  /** The two sides split the participants: every participant is on exactly
      one of them, as often as it occurs. */
  lemma {:induction false} SidesPartition(ps: seq<Participant>, myTeam: int)
    ensures multiset(Side(ps, myTeam, true)) + multiset(Side(ps, myTeam, false)) == multiset(ps)
    ensures |Side(ps, myTeam, true)| + |Side(ps, myTeam, false)| == |ps|
  {
    if ps != [] {
      SidesPartition(ps[1..], myTeam);
      assert ps == [ps[0]] + ps[1..];
    }
  }

  function MapAll(ps: seq<Participant>, all: seq<DerivedMetrics>, uid: string): (es: seq<RosterEntry>)
    ensures |es| == |ps|
    ensures forall i :: 0 <= i < |ps| ==> es[i] == MapPlayer(ps[i], all, uid)
  {
    seq(|ps|, i requires 0 <= i < |ps| => MapPlayer(ps[i], all, uid))
  }

  function ScoreKey(e: RosterEntry): real
  {
    e.score
  }

  /** One side's rows: mapped, stably sorted by score (highest first), with
      medals assigned. */
  function SideRoster(ps: seq<Participant>, all: seq<DerivedMetrics>, uid: string, myTeam: int, ally: bool)
    : (r: seq<RosterEntry>)
    ensures |r| == |Side(ps, myTeam, ally)|
  {
    AssignMedals(SortDesc(MapAll(Side(ps, myTeam, ally), all, uid), ScoreKey))
  }

  /** Sorting only reorders the mapped rows: the row at `i` is the mapped
      row of some participant `side[k]`. */
  lemma SortedRowIsMapped(side: seq<Participant>, all: seq<DerivedMetrics>, uid: string, i: nat)
    returns (k: nat)
    requires i < |side|
    ensures var sorted := SortDesc(MapAll(side, all, uid), ScoreKey);
            && k < |side| && i < |sorted| && sorted[i] == MapPlayer(side[k], all, uid)
  {
    var mapped := MapAll(side, all, uid);
    var sorted := SortDesc(mapped, ScoreKey);
    assert sorted[i] in multiset(mapped);
    k :| 0 <= k < |mapped| && mapped[k] == sorted[i];
  }

  /** Each row of a side's roster is a mapped participant of that side; rows
      run from the highest score down; each row carries exactly the medals
      its player holds within the side. */
  lemma SideRosterSpec(ps: seq<Participant>, all: seq<DerivedMetrics>, uid: string, myTeam: int, ally: bool)
    ensures var sorted := SortDesc(MapAll(Side(ps, myTeam, ally), all, uid), ScoreKey);
            var r := SideRoster(ps, all, uid, myTeam, ally);
            && (forall i :: 0 <= i < |r| ==>
                  && r[i] == sorted[i].(medals := Earned(sorted, i, MedalConfig))
                  && r[i].rawData in ps
                  && (r[i].rawData.teamId == Some(myTeam) <==> ally)
                  && r[i].score == Score(r[i].rawData)
                  && (r[i].isMe <==> r[i].rawData.id == uid))
            && (forall i, j :: 0 <= i < j < |r| ==> r[i].score >= r[j].score)
  {
    SideRosterRows(ps, all, uid, myTeam, ally);
    SideRosterOrdered(ps, all, uid, myTeam, ally);
  }

  lemma SideRosterRows(ps: seq<Participant>, all: seq<DerivedMetrics>, uid: string, myTeam: int, ally: bool)
    ensures var sorted := SortDesc(MapAll(Side(ps, myTeam, ally), all, uid), ScoreKey);
            var r := SideRoster(ps, all, uid, myTeam, ally);
            forall i :: 0 <= i < |r| ==>
              && r[i] == sorted[i].(medals := Earned(sorted, i, MedalConfig))
              && r[i].rawData in ps
              && (r[i].rawData.teamId == Some(myTeam) <==> ally)
              && r[i].score == Score(r[i].rawData)
              && (r[i].isMe <==> r[i].rawData.id == uid)
  {
    var r := SideRoster(ps, all, uid, myTeam, ally);
    forall i | 0 <= i < |r| {
      SideRosterRow(ps, all, uid, myTeam, ally, i);
    }
  }

  /** Rows run from the highest score down. */
  lemma SideRosterOrdered(ps: seq<Participant>, all: seq<DerivedMetrics>, uid: string, myTeam: int, ally: bool)
    ensures var r := SideRoster(ps, all, uid, myTeam, ally);
            forall i, j :: 0 <= i < j < |r| ==> r[i].score >= r[j].score
  {
    var sorted := SortDesc(MapAll(Side(ps, myTeam, ally), all, uid), ScoreKey);
    var r := SideRoster(ps, all, uid, myTeam, ally);
    forall i, j | 0 <= i < j < |r| ensures r[i].score >= r[j].score {
      AssignMedalsSpec(sorted, i);
      AssignMedalsSpec(sorted, j);
      assert ScoreKey(sorted[i]) >= ScoreKey(sorted[j]);
    }
  }

  /** One row of a side's roster: the sorted row at its place with its
      medals, standing for a participant of that side. */
  lemma SideRosterRow(ps: seq<Participant>, all: seq<DerivedMetrics>, uid: string, myTeam: int, ally: bool, i: nat)
    requires i < |SideRoster(ps, all, uid, myTeam, ally)|
    ensures var sorted := SortDesc(MapAll(Side(ps, myTeam, ally), all, uid), ScoreKey);
            var r := SideRoster(ps, all, uid, myTeam, ally);
            && i < |sorted|
            && r[i] == sorted[i].(medals := Earned(sorted, i, MedalConfig))
            && r[i].rawData in ps && (r[i].rawData.teamId == Some(myTeam) <==> ally)
            && r[i].score == Score(r[i].rawData) && (r[i].isMe <==> r[i].rawData.id == uid)
  {
    var side := Side(ps, myTeam, ally);
    var sorted := SortDesc(MapAll(side, all, uid), ScoreKey);
    AssignMedalsSpec(sorted, i);
    var k := SortedRowIsMapped(side, all, uid, i);
  }

  /** `ally.find((p) => p.isMe)`'s medals, or none. */
  function MyMedals(ally: seq<RosterEntry>): (ms: seq<Medal>)
    ensures (forall i :: 0 <= i < |ally| ==> !ally[i].isMe) ==> ms == []
    ensures (exists i :: 0 <= i < |ally| && ally[i].isMe) ==>
              exists i :: 0 <= i < |ally| && ally[i].isMe && ms == ally[i].medals
                          && forall j :: 0 <= j < i ==> !ally[j].isMe
  {
    if ally == [] then []
    else if ally[0].isMe then ally[0].medals
    else
      var ms := MyMedals(ally[1..]);
      if exists i :: 0 <= i < |ally| && ally[i].isMe then
        assert exists i :: 0 <= i < |ally[1..]| && ally[1..][i].isMe by {
          var i :| 0 <= i < |ally| && ally[i].isMe;
          assert ally[1..][i - 1] == ally[i];
        }
        ghost var i :| 0 <= i < |ally[1..]| && ally[1..][i].isMe && ms == ally[1..][i].medals
                       && forall j :: 0 <= j < i ==> !ally[1..][j].isMe;
        assert forall j :: 1 <= j < i + 1 ==> ally[j] == ally[1..][j - 1];
        ms
      else ms
  }
}
