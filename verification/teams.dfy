/** Team and outcome resolution for one match (analyzer.js:93-135).

    The source normalises the participant objects in place; here the
    normalisation returns copies. */
module Teams {
  import opened Optional
  import opened Records

  /** Name given to participants whose name is missing. */
  const UnknownName: string := "Unknown"

  function OrZero(r: Option<real>): real
  {
    if r.Some? then r.value else 0.0
  }

  /** Rating change, reading a missing rating as 0. */
  function Delta(p: Participant): real
  {
    OrZero(p.newRating) - OrZero(p.oldRating)
  }

  predicate Named(p: Participant)
  {
    p.name != ""
  }

  /** Team 1 is `TeamId === 1`; every other value counts as team 0. */
  function TeamOf(p: Participant): int
  {
    if p.teamId == Some(1) then 1 else 0
  }

  function Abs(x: real): real
  {
    if x < 0.0 then -x else x
  }

  /** Summed rating changes and head counts of the named participants on
      each side (analyzer.js:94-101). */
  datatype Tally = Tally(sum1: real, count1: nat, sum0: real, count0: nat)

  function TallyNamed(ps: seq<Participant>): Tally
  {
    if ps == [] then Tally(0.0, 0, 0.0, 0)
    else
      var t := TallyNamed(ps[..|ps| - 1]);
      var p := ps[|ps| - 1];
      if !Named(p) then t
      else if TeamOf(p) == 1 then t.(sum1 := t.sum1 + Delta(p), count1 := t.count1 + 1)
      else t.(sum0 := t.sum0 + Delta(p), count0 := t.count0 + 1)
  }

  /** The tally is empty exactly when no participant is named. */
  lemma {:induction false} TallyEmptyIffUnnamed(ps: seq<Participant>)
    ensures TallyNamed(ps).count1 + TallyNamed(ps).count0 == 0
            <==> forall i :: 0 <= i < |ps| ==> !Named(ps[i])
  {
    if ps != [] {
      var init := ps[..|ps| - 1];
      TallyEmptyIffUnnamed(init);
      assert forall i :: 0 <= i < |init| ==> init[i] == ps[i];
    }
  }

  function Average(sum: real, count: nat): real
  {
    if count > 0 then sum / count as real else 0.0
  }

  /** Team of an unnamed participant with rating change `d`: the side whose
      named average is strictly closer (ties to 0); with nobody named, team 1
      iff `d >= 0` (analyzer.js:112-113). */
  function InferredTeam(d: real, t: Tally): (team: int)
    ensures team == 0 || team == 1
    ensures t.count1 + t.count0 > 0 ==>
      (team == 1 <==> Abs(d - Average(t.sum1, t.count1)) < Abs(d - Average(t.sum0, t.count0)))
    ensures t.count1 + t.count0 == 0 ==> (team == 1 <==> d >= 0.0)
  {
    if Abs(d - Average(t.sum1, t.count1)) < Abs(d - Average(t.sum0, t.count0)) then 1
    else if t.count1 == 0 && t.count0 == 0 then (if d >= 0.0 then 1 else 0)
    else 0
  }

  /** The participant as left by the normalisation loop (analyzer.js:106-116). */
  function NormalizeOne(key: string, p: Participant, t: Tally): Participant
  {
    var id := if p.id == "" then key else p.id;
    if Named(p) then p.(id := id, teamId := Some(TeamOf(p)))
    else p.(id := id, name := UnknownName, teamId := Some(InferredTeam(Delta(p), t)))
  }

  /** Everything but id, name and team is carried over unchanged. */
  predicate SameRecord(q: Participant, p: Participant)
  {
    q.(id := p.id, name := p.name, teamId := p.teamId) == p
  }

  function Normalize(data: seq<(string, Participant)>): (ps: seq<Participant>)
    ensures |ps| == |data|
    ensures forall i :: 0 <= i < |ps| ==> (ps[i].teamId == Some(0) || ps[i].teamId == Some(1))
    ensures forall i :: 0 <= i < |ps| ==> Named(ps[i]) && SameRecord(ps[i], data[i].1)
    ensures forall i :: 0 <= i < |ps| ==> ps[i].id == if data[i].1.id == "" then data[i].0 else data[i].1.id
    ensures forall i :: 0 <= i < |ps| && Named(data[i].1) ==>
      ps[i].name == data[i].1.name && (ps[i].teamId == Some(1) <==> data[i].1.teamId == Some(1))
  {
    var t := TallyNamed(Participants(data));
    seq(|data|, i requires 0 <= i < |data| => NormalizeOne(data[i].0, data[i].1, t))
  }

  /** Unnamed participants are placed by rating change: towards the strictly
      closer named average, or by sign when nobody is named. */
  lemma UnnamedPlacement(data: seq<(string, Participant)>, i: nat)
    requires i < |data| && !Named(data[i].1)
    ensures var ps := Participants(data);
            var t := TallyNamed(ps);
            var d := Delta(data[i].1);
            var team1 := Normalize(data)[i].teamId == Some(1);
            && Normalize(data)[i].name == UnknownName
            && ((forall j :: 0 <= j < |ps| ==> !Named(ps[j])) ==> (team1 <==> d >= 0.0))
            && ((exists j :: 0 <= j < |ps| && Named(ps[j])) ==>
                  (team1 <==> Abs(d - Average(t.sum1, t.count1)) < Abs(d - Average(t.sum0, t.count0))))
  {
    TallyEmptyIffUnnamed(Participants(data));
  }

  /** Sums of rating changes per side over participants with both ratings
      present (analyzer.js:120-126). */
  function RatedSums(ps: seq<Participant>): (real, real)
  {
    if ps == [] then (0.0, 0.0)
    else
      var s := RatedSums(ps[..|ps| - 1]);
      var p := ps[|ps| - 1];
      if p.newRating.None? || p.oldRating.None? then s
      else if p.teamId == Some(0) then (s.0 + Delta(p), s.1)
      else (s.0, s.1 + Delta(p))
  }

  /** The declared winner, or the side with the strictly larger summed
      rating change; team 1 on ties. Never infers a draw. */
  function InferWinner(declared: Option<int>, ps: seq<Participant>): (w: int)
    ensures declared.Some? ==> w == declared.value
    ensures declared.None? ==> (w == 0 || w == 1) && w != DrawTeam
    ensures declared.None? ==> (w == 0 <==> RatedSums(ps).0 > RatedSums(ps).1)
  {
    if declared.Some? then declared.value
    else if RatedSums(ps).0 > RatedSums(ps).1 then 0 else 1
  }

  predicate Rated(p: Participant)
  {
    p.newRating.Some? && p.oldRating.Some?
  }

  lemma {:induction false} RatedSumsSigns(ps: seq<Participant>)
    requires forall i :: 0 <= i < |ps| && Rated(ps[i]) && ps[i].teamId == Some(0) ==> Delta(ps[i]) >= 0.0
    requires forall i :: 0 <= i < |ps| && Rated(ps[i]) && ps[i].teamId != Some(0) ==> Delta(ps[i]) <= 0.0
    ensures RatedSums(ps).0 >= 0.0 && RatedSums(ps).1 <= 0.0
    ensures (exists i :: 0 <= i < |ps| && Rated(ps[i]) && Delta(ps[i]) != 0.0) ==> RatedSums(ps).0 > RatedSums(ps).1
  {
    if ps != [] {
      var init := ps[..|ps| - 1];
      assert forall i :: 0 <= i < |init| ==> init[i] == ps[i];
      RatedSumsSigns(init);
      if exists i :: 0 <= i < |ps| && Rated(ps[i]) && Delta(ps[i]) != 0.0 {
        var i :| 0 <= i < |ps| && Rated(ps[i]) && Delta(ps[i]) != 0.0;
        if i < |init| {
          assert Rated(init[i]) && Delta(init[i]) != 0.0;
        }
      }
    }
  }

  /** When every rated team-0 player gained, every other rated player lost,
      and someone's rating moved, team 0 is inferred the winner. */
  lemma WinnerFollowsRatingSigns(ps: seq<Participant>)
    requires forall i :: 0 <= i < |ps| && Rated(ps[i]) && ps[i].teamId == Some(0) ==> Delta(ps[i]) >= 0.0
    requires forall i :: 0 <= i < |ps| && Rated(ps[i]) && ps[i].teamId != Some(0) ==> Delta(ps[i]) <= 0.0
    requires exists i :: 0 <= i < |ps| && Rated(ps[i]) && Delta(ps[i]) != 0.0
    ensures InferWinner(None, ps) == 0
  {
    RatedSumsSigns(ps);
  }

  /** Index of the first participant whose id is `uid`. */
  function FindId(ps: seq<Participant>, uid: string): (r: Option<nat>)
    ensures r.Some? ==>
      r.value < |ps| && ps[r.value].id == uid && forall j :: 0 <= j < r.value ==> ps[j].id != uid
    ensures r.None? ==> forall j :: 0 <= j < |ps| ==> ps[j].id != uid
  {
    if ps == [] then None
    else if ps[0].id == uid then Some(0)
    else match FindId(ps[1..], uid)
      case None => None
      case Some(i) =>
        assert forall j :: 1 <= j < i + 1 ==> ps[j] == ps[1..][j - 1];
        Some(i + 1)
  }

  /** The target's side and result in one match (analyzer.js:131-134). */
  datatype Outcome = Outcome(myTeam: int, found: bool, isWin: bool, isDraw: bool)

  /** Every participant carries team 0 or 1, as `Normalize` leaves them. */
  ghost predicate Normalized(ps: seq<Participant>)
  {
    forall j :: 0 <= j < |ps| ==> ps[j].teamId == Some(0) || ps[j].teamId == Some(1)
  }

  function ResolveOutcome(ps: seq<Participant>, winner: int, uid: string): (o: Outcome)
    requires Normalized(ps)
    ensures o.isDraw <==> winner == DrawTeam
    ensures o.isWin <==> !o.isDraw && o.myTeam == winner
    ensures o.found <==> exists j :: 0 <= j < |ps| && ps[j].id == uid
    ensures o.found ==> exists j :: 0 <= j < |ps| && ps[j].id == uid && ps[j].teamId == Some(o.myTeam)
    ensures !o.found ==> !o.isWin
  {
    var me := FindId(ps, uid);
    var myTeam := if me.Some? then ps[me.value].teamId.value else (if winner == 0 then 1 else 0);
    var isDraw := winner == DrawTeam;
    Outcome(myTeam, me.Some?, !isDraw && myTeam == winner, isDraw)
  }

  /** The entries of a match after the source's in-place normalisation. */
  function Rewritten(data: seq<(string, Participant)>): (r: seq<(string, Participant)>)
    ensures |r| == |data|
  {
    var ps := Normalize(data);
    seq(|data|, i requires 0 <= i < |data| => (data[i].0, ps[i]))
  }

  /** Normalising already-normalised entries changes nothing, so analysing a
      batch the source has already mutated gives the same participants. */
  lemma NormalizeIdempotent(data: seq<(string, Participant)>)
    ensures Normalize(Rewritten(data)) == Normalize(data)
  {
    var ps := Normalize(data);
    var ps2 := Normalize(Rewritten(data));
    forall i | 0 <= i < |data| ensures ps2[i] == ps[i] {
      assert Rewritten(data)[i] == (data[i].0, ps[i]);
    }
  }

  /** A declared winner is kept as is: the source's per-player result does not
      look at the player's own rating change. */
  lemma DeclaredWinnerOverridesRatingGain()
    ensures var p := Participant("7", "ace", Some(0), Some(1000.0), Some(1010.0),
                                 0.0, 0.0, 0.0, 0.0, 0.0, 0.0, 0.0, 0.0, 0.0, 0.0, 0.0, 0.0, 0.0, 0.0, []);
            var ps := Normalize([("7", p)]);
            Delta(p) > 0.0 && !ResolveOutcome(ps, InferWinner(Some(1), ps), "7").isWin
  {
    var p := Participant("7", "ace", Some(0), Some(1000.0), Some(1010.0),
                         0.0, 0.0, 0.0, 0.0, 0.0, 0.0, 0.0, 0.0, 0.0, 0.0, 0.0, 0.0, 0.0, 0.0, []);
    var ps := Normalize([("7", p)]);
    assert ps[0].id == "7" && ps[0].teamId == Some(0);
  }

  /** Team 0 up 5 and team 1 down 5, no declared winner: team 0 wins. */
  lemma InferredWinnerExample()
    ensures var a := Participant("1", "a", Some(0), Some(1000.0), Some(1005.0),
                                 0.0, 0.0, 0.0, 0.0, 0.0, 0.0, 0.0, 0.0, 0.0, 0.0, 0.0, 0.0, 0.0, 0.0, []);
            var b := Participant("2", "b", Some(1), Some(1000.0), Some(995.0),
                                 0.0, 0.0, 0.0, 0.0, 0.0, 0.0, 0.0, 0.0, 0.0, 0.0, 0.0, 0.0, 0.0, 0.0, []);
            InferWinner(None, [a, b]) == 0
  {
    var a := Participant("1", "a", Some(0), Some(1000.0), Some(1005.0),
                         0.0, 0.0, 0.0, 0.0, 0.0, 0.0, 0.0, 0.0, 0.0, 0.0, 0.0, 0.0, 0.0, 0.0, []);
    var b := Participant("2", "b", Some(1), Some(1000.0), Some(995.0),
                         0.0, 0.0, 0.0, 0.0, 0.0, 0.0, 0.0, 0.0, 0.0, 0.0, 0.0, 0.0, 0.0, 0.0, []);
    assert [a, b][..1] == [a];
    assert [a][..0] == [];
    assert RatedSums([a]) == (5.0, 0.0);
    assert RatedSums([a, b]) == (5.0, -5.0);
  }
}
