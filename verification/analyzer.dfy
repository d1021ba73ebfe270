/** `processFinalData(myUid, matches)` (analyzer.js:72-388): per-match
    analysis and the batch summary, without the display-only strings. */
module Analyzer {
  import opened Optional
  import opened Records
  import opened Config
  import opened Arith
  import opened Sorting
  import opened Teams
  import opened Metrics
  import opened Scoring
  import opened Medals
  import opened Roster
  import opened MedalCounts
  import opened Playstyle

  // ---------------------------------------------------------------------
  // Category sums
  // ---------------------------------------------------------------------

  const ZeroScores: Scores := Scores(0.0, 0.0, 0.0, 0.0, 0.0, 0.0)

  function AddScores(a: Scores, b: Scores): (r: Scores)
    ensures forall c :: ScoreOf(r, c) == ScoreOf(a, c) + ScoreOf(b, c)
  {
    Scores(a.battlefield + b.battlefield, a.combat + b.combat, a.economy + b.economy,
           a.teamwork + b.teamwork, a.strategy + b.strategy, a.firepower + b.firepower)
  }

  /** Every category divided by `n`. */
  function ScaleScores(a: Scores, n: nat): (r: Scores)
    requires n > 0
    ensures forall c :: ScoreOf(r, c) * n as real == ScoreOf(a, c)
  {
    var d := n as real;
    Scores(a.battlefield / d, a.combat / d, a.economy / d,
           a.teamwork / d, a.strategy / d, a.firepower / d)
  }

  /** Every category lies in [0, hi]. */
  predicate Within(s: Scores, hi: real)
  {
    forall c :: 0.0 <= ScoreOf(s, c) <= hi
  }

  // ---------------------------------------------------------------------
  // Style ratios (analyzer.js:277-294)
  // ---------------------------------------------------------------------

  function SumOf(xs: seq<real>): real
  {
    if xs == [] then 0.0 else xs[0] + SumOf(xs[1..])
  }

  /** `x || 1` on a number: a zero mean reads as 1. */
  function OrOne(x: real): real
  {
    if x == 0.0 then 1.0 else x
  }

  /** `avg(key)`: the match mean of a metric, with a zero mean read as 1. */
  function Avg(all: seq<DerivedMetrics>, k: MetricKey): real
    requires |all| > 0
  {
    OrOne(SumOf(Population(all, k)) / |all| as real)
  }

  /** A player's summed shares of its own side's losses, damage and
      destruction. */
  function Burden(m: DerivedMetrics): real
  {
    m.teamLossShare + m.teamDmgShare + m.teamDestShare
  }

  function Burdens(all: seq<DerivedMetrics>): (xs: seq<real>)
    ensures |xs| == |all|
    ensures forall i :: 0 <= i < |all| ==> xs[i] == Burden(all[i])
  {
    seq(|all|, i requires 0 <= i < |all| => Burden(all[i]))
  }

  /** The metric each non-battlefield style dimension compares. */
  function RatioKey(c: Category): MetricKey
    requires c != Battlefield
  {
    match c
    case Combat => DlRatio
    case Economy => RefundRate
    case Teamwork => UniqueUnits
    case Strategy => ObjectivesCaptured
    case Firepower => MetricKey.DamageDealt
  }

  /** The match mean of the summed side shares, over three. */
  function MeanBurden(all: seq<DerivedMetrics>): real
    requires |all| > 0
  {
    SumOf(Burdens(all)) / |all| as real / 3.0
  }

  /** The target's multiplier on one style dimension: its value over the
      match mean, or 1 when that mean is not positive. Battlefield compares
      the mean of the three side shares, without the zero-mean fallback;
      each other dimension one metric. */
  function Ratio(all: seq<DerivedMetrics>, me: DerivedMetrics, c: Category): (r: real)
    requires |all| > 0
    ensures c == Battlefield && MeanBurden(all) > 0.0 ==> r * MeanBurden(all) == Burden(me) / 3.0
    ensures c == Battlefield && MeanBurden(all) <= 0.0 ==> r == 1.0
    ensures c != Battlefield && Avg(all, RatioKey(c)) > 0.0 ==> r * Avg(all, RatioKey(c)) == Get(me, RatioKey(c))
    ensures c != Battlefield && Avg(all, RatioKey(c)) <= 0.0 ==> r == 1.0
  {
    if c == Battlefield then SafeDivide(Burden(me) / 3.0, MeanBurden(all), 1.0)
    else SafeDivide(Get(me, RatioKey(c)), Avg(all, RatioKey(c)), 1.0)
  }

  /** The target's style multipliers for one match (analyzer.js:280-293). */
  function StyleRatios(all: seq<DerivedMetrics>, me: DerivedMetrics): (r: Scores)
    requires |all| > 0
    ensures forall c :: ScoreOf(r, c) == Ratio(all, me, c)
  {
    Scores(Ratio(all, me, Battlefield), Ratio(all, me, Combat), Ratio(all, me, Economy),
           Ratio(all, me, Teamwork), Ratio(all, me, Strategy), Ratio(all, me, Firepower))
  }

  // ---------------------------------------------------------------------
  // One match (analyzer.js:89-354)
  // ---------------------------------------------------------------------

  /** The per-match record returned in `stats`. */
  datatype MatchStats = MatchStats(
    id: string,
    wcs: real,
    breakdown: Scores,
    ally: seq<RosterEntry>,
    enemy: seq<RosterEntry>,
    isWin: bool,
    isDraw: bool,
    endReason: int,
    endTime: int,
    mapId: int,
    duration: int,
    winnerTeam: int)

  /** What one match adds to the batch accumulators: zero WCS, categories
      and ratios when the target has no metrics in the match. */
  datatype Contribution = Contribution(
    scored: bool, wcs: real, categories: Scores, ratios: Scores, isWin: bool, medals: seq<Medal>)

  datatype MatchResult = MatchResult(stats: MatchStats, contribution: Contribution)

  /** The target appears among the match's participants, after missing ids
      have been filled in from the entry keys. */
  ghost predicate Present(m: MatchRecord, uid: string)
  {
    exists i :: 0 <= i < |m.data| && Normalize(m.data)[i].id == uid
  }

  function AnalyzeMatch(m: MatchRecord, uid: string): (r: MatchResult)
    ensures r.stats.id == m.id && r.stats.duration == m.duration && r.stats.mapId == m.mapId
    ensures r.stats.endReason == m.endReason && r.stats.endTime == m.endTime
    ensures m.winnerTeam.Some? ==> r.stats.winnerTeam == m.winnerTeam.value
    ensures m.winnerTeam.None? ==> r.stats.winnerTeam == 0 || r.stats.winnerTeam == 1
    ensures r.stats.isDraw <==> r.stats.winnerTeam == DrawTeam
    ensures r.stats.isWin ==> !r.stats.isDraw
    ensures 0.0 <= r.stats.wcs <= 100.0 && InRange(r.stats.breakdown)
    ensures r.contribution.scored <==> Present(m, uid)
    ensures r.contribution.isWin == r.stats.isWin
    ensures r.contribution.scored ==>
              r.contribution.wcs == r.stats.wcs && r.contribution.categories == r.stats.breakdown
    ensures !r.contribution.scored ==>
              && r.stats.wcs == 50.0 && r.stats.breakdown == Neutral && !r.stats.isWin
              && r.contribution.wcs == 0.0 && r.contribution.categories == ZeroScores
              && r.contribution.ratios == ZeroScores && r.contribution.medals == []
    ensures |r.stats.ally| + |r.stats.enemy| == |m.data|
  {
    var ps := Normalize(m.data);
    var winner := InferWinner(m.winnerTeam, ps);
    var o := ResolveOutcome(ps, winner, uid);
    var all := AllMetrics(ps);
    var me := FindMetrics(all, uid);
    var sc := ScoreMatch(all, me, o.isWin, o.isDraw);
    var ally := SideRoster(ps, all, uid, o.myTeam, true);
    var enemy := SideRoster(ps, all, uid, o.myTeam, false);
    SidesPartition(ps, o.myTeam);
    var myMedals := MyMedals(ally);
    FoundIffPresent(m, uid);
    if me.None? then
      AbsentHasNoMedals(ps, uid, o.myTeam);
      var stats := MatchStats(m.id, sc.wcs, sc.categories, ally, enemy, o.isWin, o.isDraw,
                              m.endReason, m.endTime, m.mapId, m.duration, winner);
      MatchResult(stats, Contribution(false, 0.0, ZeroScores, ZeroScores, o.isWin, myMedals))
    else
      var stats := MatchStats(m.id, sc.wcs, sc.categories, ally, enemy, o.isWin, o.isDraw,
                              m.endReason, m.endTime, m.mapId, m.duration, winner);
      MatchResult(stats, Contribution(true, sc.wcs, sc.categories, StyleRatios(all, me.value), o.isWin, myMedals))
  }

  /** The target has metrics in the match exactly when it is present. */
  lemma FoundIffPresent(m: MatchRecord, uid: string)
    ensures FindMetrics(AllMetrics(Normalize(m.data)), uid).Some? <==> Present(m, uid)
  {
    var ps := Normalize(m.data);
    var all := AllMetrics(ps);
    assert forall i :: 0 <= i < |all| ==> all[i].id == ps[i].id;
  }

  /** A target without metrics has no entry in its side's roster, so it
      earns no medals. */
  lemma AbsentHasNoMedals(ps: seq<Participant>, uid: string, myTeam: int)
    requires FindMetrics(AllMetrics(ps), uid).None?
    ensures MyMedals(SideRoster(ps, AllMetrics(ps), uid, myTeam, true)) == []
  {
    SideRosterSpec(ps, AllMetrics(ps), uid, myTeam, true);
  }

  // ---------------------------------------------------------------------
  // The batch (analyzer.js:357-388)
  // ---------------------------------------------------------------------

  /** The accumulators after a prefix of the batch. */
  datatype Acc = Acc(wcsSum: real, catSums: Scores, ratioSums: Scores, wins: nat, counts: Counts)

  /** The accumulators after the contributions `cs`, in batch order. */
  function Accumulate(cs: seq<Contribution>): (a: Acc)
    ensures a.wins <= |cs|
    ensures Distinct(a.counts) && Positive(a.counts)
  {
    if cs == [] then Acc(0.0, ZeroScores, ZeroScores, 0, [])
    else
      var a := Accumulate(cs[..|cs| - 1]);
      var c := cs[|cs| - 1];
      BumpAllSpec(a.counts, c.medals);
      Acc(a.wcsSum + c.wcs, AddScores(a.catSums, c.categories), AddScores(a.ratioSums, c.ratios),
          a.wins + (if c.isWin then 1 else 0), BumpAll(a.counts, c.medals))
  }

  /** A contribution whose WCS and categories lie in [0, 100]. */
  predicate ValidContribution(c: Contribution)
  {
    0.0 <= c.wcs <= 100.0 && Within(c.categories, 100.0)
  }

  /** Sums of valid contributions stay within 100 per match. */
  lemma {:induction false} AccumulateBounds(cs: seq<Contribution>)
    requires forall i :: 0 <= i < |cs| ==> ValidContribution(cs[i])
    ensures 0.0 <= Accumulate(cs).wcsSum <= 100.0 * |cs| as real
    ensures Within(Accumulate(cs).catSums, 100.0 * |cs| as real)
  {
    if cs != [] {
      var init := cs[..|cs| - 1];
      assert forall i :: 0 <= i < |init| ==> init[i] == cs[i];
      AccumulateBounds(init);
      assert ValidContribution(cs[|cs| - 1]);
    }
  }

  /** Number of contributions from won matches. */
  function Wins(cs: seq<Contribution>): set<nat>
  {
    set i | 0 <= i < |cs| && cs[i].isWin
  }

  /** The win counter counts exactly the won matches. */
  lemma {:induction false} WinsCounted(cs: seq<Contribution>)
    ensures Accumulate(cs).wins == |Wins(cs)|
  {
    if cs != [] {
      var init := cs[..|cs| - 1];
      WinsCounted(init);
      var last := |cs| - 1;
      if cs[last].isWin {
        assert Wins(cs) == Wins(init) + {last};
        assert last !in Wins(init);
      } else {
        assert Wins(cs) == Wins(init);
      }
    }
  }

  /** The tally gives each medal key the number of times the target earned
      it across the batch. */
  function MedalTotal(cs: seq<Contribution>, k: Stat): nat
  {
    if cs == [] then 0 else MedalTotal(cs[..|cs| - 1], k) + Occurrences(cs[|cs| - 1].medals, k)
  }

  lemma {:induction false} MedalTally(cs: seq<Contribution>)
    ensures forall k :: CountOf(Accumulate(cs).counts, k) == MedalTotal(cs, k)
  {
    if cs != [] {
      var init := cs[..|cs| - 1];
      MedalTally(init);
      BumpAllSpec(Accumulate(init).counts, cs[|cs| - 1].medals);
    }
  }

  /** The batch summary (the returned object minus display strings). */
  datatype Summary = Summary(
    stats: seq<MatchStats>,
    wcs: real,
    breakdown: Scores,
    level: Level,
    playstyle: Profile,
    wins: nat,
    winRate: int,
    topMedals: seq<Stat>)

  /** A match's contribution lies within the per-match bounds. */
  lemma AnalyzeMatchValid(m: MatchRecord, uid: string)
    ensures ValidContribution(AnalyzeMatch(m, uid).contribution)
  {
    if !AnalyzeMatch(m, uid).contribution.scored {
      assert forall c :: ScoreOf(ZeroScores, c) == 0.0;
    }
  }

  function Results(matches: seq<MatchRecord>, uid: string): (rs: seq<MatchResult>)
    ensures |rs| == |matches|
    ensures forall i :: 0 <= i < |matches| ==> rs[i] == AnalyzeMatch(matches[i], uid)
  {
    seq(|matches|, i requires 0 <= i < |matches| => AnalyzeMatch(matches[i], uid))
  }

  function Contributions(rs: seq<MatchResult>): (cs: seq<Contribution>)
    ensures |cs| == |rs|
    ensures forall i :: 0 <= i < |rs| ==> cs[i] == rs[i].contribution
  {
    seq(|rs|, i requires 0 <= i < |rs| => rs[i].contribution)
  }

  /** `total / n` for a total of at most 100 per match. */
  function PerMatch(total: real, n: nat): (r: real)
    requires n > 0 && 0.0 <= total <= 100.0 * n as real
    ensures 0.0 <= r <= 100.0
    ensures r * n as real == total
  {
    DivNonNegative(total, n as real);
    DivMonotone(total, 100.0 * n as real, n as real);
    total / n as real
  }

  /** Category sums over `n` matches, each category at most 100 per match,
      averaged. */
  function MeanScores(sums: Scores, n: nat): (r: Scores)
    requires n > 0 && Within(sums, 100.0 * n as real)
    ensures InRange(r)
    ensures forall c :: ScoreOf(r, c) * n as real == ScoreOf(sums, c)
  {
    var r := ScaleScores(sums, n);
    forall c ensures 0.0 <= ScoreOf(r, c) <= 100.0 {
      QuotientBound(ScoreOf(r, c), ScoreOf(sums, c), n as real, 100.0);
    }
    r
  }

  lemma RoundWithin(x: real)
    requires 0.0 <= x <= 100.0
    ensures 0 <= Round(x) <= 100
  {
  }

  /** `Math.round((wins / n) * 100)`: the win percentage to the nearest
      integer. */
  function WinRate(wins: nat, n: nat): (r: int)
    requires 0 < n && wins <= n
    ensures 0 <= r <= 100
    ensures var x := 100.0 * wins as real / n as real;
            r as real - 0.5 <= x < r as real + 0.5
  {
    var total := 100.0 * wins as real;
    var x := PerMatch(total, n);
    assert x == total / n as real;
    RoundWithin(x);
    Round(x)
  }

  function StatsOf(rs: seq<MatchResult>): (ss: seq<MatchStats>)
    ensures |ss| == |rs|
    ensures forall i :: 0 <= i < |rs| ==> ss[i] == rs[i].stats
  {
    seq(|rs|, i requires 0 <= i < |rs| => rs[i].stats)
  }

  /** Every contribution of a batch is valid. */
  lemma ContributionsValid(matches: seq<MatchRecord>, uid: string)
    ensures var rs := Results(matches, uid);
            forall i :: 0 <= i < |rs| ==> ValidContribution(rs[i].contribution)
  {
    forall i | 0 <= i < |matches| {
      AnalyzeMatchValid(matches[i], uid);
    }
  }

  /** A per-match result as `AnalyzeMatch` produces it: a valid
      contribution; a scored match contributes its shown WCS, an absent one
      shows 50 and contributes 0; the contribution's win flag is the shown
      one. */
  ghost predicate Consistent(r: MatchResult)
  {
    && ValidContribution(r.contribution)
    && (r.contribution.scored ==> r.contribution.wcs == r.stats.wcs)
    && (!r.contribution.scored ==> r.stats.wcs == 50.0 && r.contribution.wcs == 0.0)
    && r.contribution.isWin == r.stats.isWin
  }

  lemma ResultsConsistent(matches: seq<MatchRecord>, uid: string)
    ensures var rs := Results(matches, uid);
            forall i :: 0 <= i < |rs| ==> Consistent(rs[i])
  {
    ContributionsValid(matches, uid);
  }

  /** The WCS shown for each match, summed. */
  function ShownWcsSum(rs: seq<MatchResult>): real
  {
    if rs == [] then 0.0 else ShownWcsSum(rs[..|rs| - 1]) + rs[|rs| - 1].stats.wcs
  }

  /** The number of matches in which the target is absent. */
  function AbsentCount(rs: seq<MatchResult>): nat
  {
    if rs == [] then 0
    else AbsentCount(rs[..|rs| - 1]) + (if rs[|rs| - 1].contribution.scored then 0 else 1)
  }

  /** The WCS total the batch accumulates is the shown per-match WCS summed,
      less 50 for each match that lacks the target: such a match shows 50
      but adds nothing. */
  lemma {:induction false} WcsSumSplit(rs: seq<MatchResult>)
    requires forall i :: 0 <= i < |rs| ==> Consistent(rs[i])
    ensures Accumulate(Contributions(rs)).wcsSum + 50.0 * AbsentCount(rs) as real == ShownWcsSum(rs)
  {
    if rs != [] {
      var init := rs[..|rs| - 1];
      assert forall i :: 0 <= i < |init| ==> init[i] == rs[i];
      WcsSumSplit(init);
      assert Contributions(rs)[..|rs| - 1] == Contributions(init);
      assert Consistent(rs[|rs| - 1]);
    }
  }

  lemma {:induction false} NoAbsent(rs: seq<MatchResult>)
    requires forall i :: 0 <= i < |rs| ==> rs[i].contribution.scored
    ensures AbsentCount(rs) == 0
  {
    if rs != [] {
      NoAbsent(rs[..|rs| - 1]);
    }
  }

  /** When the target plays in every match, the total the overall WCS is
      taken from is the sum of the shown per-match WCS. */
  lemma WcsIsMeanWhenAlwaysPresent(uid: string, matches: seq<MatchRecord>)
    requires forall i :: 0 <= i < |matches| ==> Present(matches[i], uid)
    ensures var rs := Results(matches, uid);
            Accumulate(Contributions(rs)).wcsSum == ShownWcsSum(rs)
  {
    var rs := Results(matches, uid);
    ResultsConsistent(matches, uid);
    WcsSumSplit(rs);
    forall i | 0 <= i < |rs| ensures rs[i].contribution.scored {
      ScoredWhenPresent(matches[i], uid);
    }
    NoAbsent(rs);
  }

  lemma ScoredWhenPresent(m: MatchRecord, uid: string)
    requires Present(m, uid)
    ensures AnalyzeMatch(m, uid).contribution.scored
  {
  }

  /** The win counter over the results counts the matches shown as won. */
  lemma WinsOfResults(rs: seq<MatchResult>)
    requires forall i :: 0 <= i < |rs| ==> Consistent(rs[i])
    ensures Accumulate(Contributions(rs)).wins == |set i | 0 <= i < |rs| && rs[i].stats.isWin|
  {
    var cs := Contributions(rs);
    WinsCounted(cs);
    assert Wins(cs) == set i | 0 <= i < |rs| && rs[i].stats.isWin;
  }

  lemma WonIndices(ss: seq<MatchStats>, rs: seq<MatchResult>)
    requires |ss| == |rs|
    requires forall i :: 0 <= i < |rs| ==> ss[i] == rs[i].stats
    ensures (set i | 0 <= i < |ss| && ss[i].isWin) == set i | 0 <= i < |rs| && rs[i].stats.isWin
  {
  }

  /** How often the target earned medal `k` over the results. */
  function Earnings(rs: seq<MatchResult>, k: Stat): nat
  {
    MedalTotal(Contributions(rs), k)
  }

  /** The medals the tally puts on top were each earned at least once, are
      listed from the most earned down, and any medal left out was earned no
      more often than each listed one. */
  lemma TopMedalsOfResults(rs: seq<MatchResult>)
    ensures var top := TopMedals(Accumulate(Contributions(rs)).counts);
            && (forall i :: 0 <= i < |top| ==> Earnings(rs, top[i]) >= 1)
            && (forall i, j :: 0 <= i < j < |top| ==> Earnings(rs, top[i]) >= Earnings(rs, top[j]))
            && (forall k, i :: k !in top && 0 <= i < |top| ==> Earnings(rs, k) <= Earnings(rs, top[i]))
  {
    var cs := Contributions(rs);
    var c := Accumulate(cs).counts;
    var top := TopMedals(c);
    MedalTally(cs);
    TopMedalsSpec(c);
    forall i | 0 <= i < |top| ensures CountOf(c, top[i]) >= 1 {
      var x :| 0 <= x < |c| && c[x].0 == top[i];
      CountOfDistinct(c, x);
    }
    forall k, i | k !in top && 0 <= i < |top| ensures CountOf(c, k) <= CountOf(c, top[i]) {
      if k !in MedalCounts.Keys(c) {
        CountOfAbsent(c, k);
      }
    }
  }

  /** The overall WCS: the contributed WCS summed and divided by the number
      of matches. */
  function MeanWcs(rs: seq<MatchResult>): (r: real)
    requires |rs| > 0
    ensures (forall i :: 0 <= i < |rs| ==> ValidContribution(rs[i].contribution)) ==> 0.0 <= r <= 100.0
    ensures r == Accumulate(Contributions(rs)).wcsSum / |rs| as real
  {
    var total := Accumulate(Contributions(rs)).wcsSum;
    if forall i :: 0 <= i < |rs| ==> ValidContribution(rs[i].contribution) then
      AccumulateBounds(Contributions(rs));
      DivNonNegative(total, |rs| as real);
      DivMonotone(total, 100.0 * |rs| as real, |rs| as real);
      total / |rs| as real
    else
      total / |rs| as real
  }

  /** The summary of a non-empty list of per-match results
      (analyzer.js:357-388). */
  function Summarize(rs: seq<MatchResult>): (r: Summary)
    requires |rs| > 0
    requires forall i :: 0 <= i < |rs| ==> Consistent(rs[i])
    ensures |r.stats| == |rs|
    ensures forall i :: 0 <= i < |rs| ==> r.stats[i] == rs[i].stats
    ensures 0.0 <= r.wcs <= 100.0 && r.wcs == MeanWcs(rs)
    ensures InRange(r.breakdown)
    ensures r.wins == |set i | 0 <= i < |r.stats| && r.stats[i].isWin|
    ensures 0 <= r.winRate <= 100
    ensures |r.topMedals| <= 2
    ensures var top := r.topMedals;
            && (forall i :: 0 <= i < |top| ==> Earnings(rs, top[i]) >= 1)
            && (forall i, j :: 0 <= i < j < |top| ==> Earnings(rs, top[i]) >= Earnings(rs, top[j]))
            && (forall k, i :: k !in top && 0 <= i < |top| ==> Earnings(rs, k) <= Earnings(rs, top[i]))
  {
    var n := |rs|;
    var cs := Contributions(rs);
    var acc := Accumulate(cs);
    assert forall i :: 0 <= i < |rs| ==> ValidContribution(rs[i].contribution) by {
      forall i | 0 <= i < |rs| ensures ValidContribution(rs[i].contribution) {
        assert Consistent(rs[i]);
      }
    }
    AccumulateBounds(cs);
    WinsOfResults(rs);
    WonIndices(StatsOf(rs), rs);
    TopMedalsOfResults(rs);
    var wcs := MeanWcs(rs);
    Summary(
      StatsOf(rs), wcs, MeanScores(acc.catSums, n), LevelOf(wcs), ComputePlaystyle(acc.ratioSums, n),
      acc.wins, WinRate(acc.wins, n), TopMedals(acc.counts))
  }

  /** `processFinalData(myUid, matches)` for a non-empty batch: one entry
      per match in batch order, the overall WCS and category means within
      [0, 100], `wins` the number of matches shown as won, and the top
      medals ranked by how often the target earned them. */
  function ProcessFinalData(uid: string, matches: seq<MatchRecord>): (r: Summary)
    requires |matches| > 0
    ensures |r.stats| == |matches|
    ensures forall i :: 0 <= i < |matches| ==> r.stats[i] == AnalyzeMatch(matches[i], uid).stats
    ensures 0.0 <= r.wcs <= 100.0 && r.wcs == MeanWcs(Results(matches, uid))
    ensures InRange(r.breakdown)
    ensures r.wins == |set i | 0 <= i < |r.stats| && r.stats[i].isWin|
    ensures 0 <= r.winRate <= 100
    ensures var rs := Results(matches, uid);
            var top := r.topMedals;
            && |top| <= 2
            && (forall i :: 0 <= i < |top| ==> Earnings(rs, top[i]) >= 1)
            && (forall i, j :: 0 <= i < j < |top| ==> Earnings(rs, top[i]) >= Earnings(rs, top[j]))
            && (forall k, i :: k !in top && 0 <= i < |top| ==> Earnings(rs, k) <= Earnings(rs, top[i]))
  {
    var rs := Results(matches, uid);
    ResultsConsistent(matches, uid);
    Summarize(rs)
  }

  /** Six wins out of twelve give a 50% win rate. */
  lemma HalfWonBatch()
    ensures WinRate(6, MatchGoal) == 50
  {
  }

  /** The match as the source leaves it after analysing it: participants
      normalised in place and the inferred winner written back. */
  function Rerun(m: MatchRecord): MatchRecord
  {
    m.(winnerTeam := Some(InferWinner(m.winnerTeam, Normalize(m.data))), data := Rewritten(m.data))
  }

  /** Analysing a match a second time, after the first pass has rewritten
      it, gives the same result. */
  lemma AnalyzeMatchRerun(m: MatchRecord, uid: string)
    ensures AnalyzeMatch(Rerun(m), uid) == AnalyzeMatch(m, uid)
  {
    NormalizeIdempotent(m.data);
  }

  /** Summarising a batch the source has already processed (and so
      rewritten) gives the same summary. */
  lemma ProcessFinalDataRerun(uid: string, matches: seq<MatchRecord>)
    requires |matches| > 0
    ensures var again := seq(|matches|, i requires 0 <= i < |matches| => Rerun(matches[i]));
            ProcessFinalData(uid, again) == ProcessFinalData(uid, matches)
  {
    var again := seq(|matches|, i requires 0 <= i < |matches| => Rerun(matches[i]));
    forall i | 0 <= i < |matches| ensures AnalyzeMatch(again[i], uid) == AnalyzeMatch(matches[i], uid) {
      AnalyzeMatchRerun(matches[i], uid);
    }
    assert Results(again, uid) == Results(matches, uid);
  }
}
