# Win Contribution Score engine of broken-arrow-insight, in Dafny

broken-arrow-insight analyses a batch of Broken Arrow matches for one player.
For every match it:

- normalises the roster and infers missing teams and winners from rating deltas;
- derives per-participant metrics and ranks the player against the whole match by percentile;
- combines six category scores (battlefield, combat, economy, teamwork, strategy, firepower) and a win bonus into a per-match Win Contribution Score (WCS);
- builds both rosters, sorted by score and decorated with team-best medals.

Over the batch it then averages the WCS and the categories, looks up a level, and derives a playstyle profile with a style label. It also counts wins and the player's two most frequent medals, and finds the player's favourite units.

Around that engine sit a search history kept in local storage, a duration formatter, and the rewrite of barmory API paths to the direct match-data service.

The model is a set of pure functions over immutable datatypes:

| module | file | models |
|---|---|---|
| `Optional` | optional.dfy | `undefined` / `null` as `Option` |
| `Arith` | arith.dfy | `Math.round`, real-division facts |
| `Sorting` | sorting.dfy | stable `Array.prototype.sort` (descending by a key) |
| `Config` | config.dfy | `src/config.js`: weights, levels, base URL |
| `Records` | records.dfy | the match records the engine reads |
| `Ranking` | percentile.dfy | `percentile` |
| `UnitStats` | unit_stats.dfy | `extractUnitStats`, `calculateFavoriteUnits` |
| `Teams` | teams.dfy | team inference, winner inference, win / draw |
| `Metrics` | metrics.dfy | `safeDivide`, team totals, derived metrics |
| `Scoring` | scoring.dfy | category percentiles and the match WCS |
| `Medals` | medals.dfy | `MEDAL_CONFIG`, `assignMedals` |
| `Roster` | roster.dfy | `mapPlayer`, ally / enemy rosters, the player's medals |
| `MedalCounts` | medal_counts.dfy | the medal tally and its top two |
| `Playstyle` | playstyle.dfy | `STYLE_LABELS`, `computePlaystyle` |
| `Analyzer` | analyzer.dfy | `processFinalData` |
| `History` | history.dfy | `getHistory`, `saveHistory`, `removeHistory` |
| `Format` | format.dfy | `formatDuration` |
| `Fetcher` | fetcher.dfy | `toBatraceUrl` |

Modelling choices:

- **Numbers.** JavaScript numbers are reals, and `field || 0` is already applied to the counters a record holds. `Math.round(x)` is `floor(x + 0.5)`. JavaScript's `%` is written out as a truncating remainder.
- **Medal keys.** The medals read a record's raw keys by name (`rawData[def.key]`, `src/engine/medals.js:25`). `Destruction` and `Losses` are therefore their own fields of a participant, separate from `DestructionScore` and `LossesScore`, which the team totals and metrics read. A missing key reads as 0.
- **Iteration order.** Objects are sequences in their iteration order. Integer keys (unit type ids) iterate in ascending order, so the unit table is an ascending association list. The medal tally iterates in insertion order, so it is an association list in that order.
- **Sorting.** `Array.prototype.sort` is stable, so it is modelled as a stable insertion sort.
- **Mutation.** The source writes normalised `Id`, `Name`, `TeamId` and `WinnerTeam` back into its input. The model returns them instead. `Analyzer.Rerun` rebuilds the mutated input, and two lemmas show that running the analysis again on it gives the same result.

### Behaviour worth noting

- **Weights.** The weights are 0.25 battlefield, 0.20 combat, 0.14 firepower, 0.11 teamwork, 0.09 economy, 0.06 strategy and 0.15 win bonus (`src/config.js:22-30`). They sum to 1. The default tooltips in `src/ui/renderer.js:61-66` still show other percentages (29, 16, 16, 10, 8, 6); the model uses the configured weights, which are what the score is computed with.
- **A player's win.** Whether the player won is decided only by comparing the team with the (declared or inferred) winning team (`analyzer.js:131-134`). No per-player rating-delta rule comes first.
- **Team inference.** Inference runs for every participant without a name, and it overwrites any team id that participant has. Named participants only have their team folded to {0, 1} (`analyzer.js:106-116`).
- **Style denominators.** A style ratio's denominator is `mean || 1`: a zero mean becomes 1, but a mean below 1 is used as is (`analyzer.js:281`). The denominator is not floored at 1.
- **WCS bound.** Because the weights sum to 1 and every score is in [0, 100], a match WCS never exceeds 100 (`Scoring.WeightedWcsBounds`).
- **Absent player.** When the player is absent from a match, that match is shown with WCS 50 and neutral categories. It adds nothing to the sums, yet the batch average still divides by every match (`analyzer.js:215, 277, 359-360`). `Analyzer.WcsSumSplit` states the gap exactly.

## Model

| member | source | states |
|---|---|---|
| Ranking.Percentile | src/engine/analyzer.js:17-22 | a percentile lies in [0, 100]; with at most one value it is 50 |
| Ranking.PercentileMonotone | src/engine/analyzer.js:17-22 | a larger value never gets a smaller percentile in the same population |
| Ranking.PercentileOfMember | src/engine/analyzer.js:17-22 | a member gets at least 50/n, and a maximum gets at least 50 (ties share the midpoint) |
| Ranking.PercentileExtremes | src/engine/analyzer.js:17-22 | with two or more values, a value above every element scores 100 and one below every element scores 0 |
| Ranking.PercentileOfStrictExtreme | src/engine/analyzer.js:17-22 | a member of n >= 2 values that is a strict maximum scores 100 - 50/n, a strict minimum 50/n (the program ranks a member of its own population, analyzer.js:211-212) |
| Ranking.PercentileTieExample | src/engine/analyzer.js:17-22 | 2 among [1, 2, 2, 3] scores 50 |
| Metrics.SafeDivide | src/engine/analyzer.js:24-26 | a positive divisor gives the quotient (r * b == a); otherwise the fallback; a non-negative dividend and fallback give a non-negative result |
| UnitStats.AggregateTotals | src/engine/analyzer.js:39-51 | the unit table holds, for each non-zero type id that occurs, the sums over that type's units, and nothing for an absent id |
| UnitStats.UpsertFind | src/engine/analyzer.js:47-50 | adding a unit changes only its type's totals, creating them at zero when new |
| UnitStats.TopIsFirstMax | src/engine/analyzer.js:53-57 | the strict `>` scan keeps the first type with the largest value |
| UnitStats.ExtractFavourites | src/engine/analyzer.js:31-60 | a favourite exists exactly when some unit has a type id, and it is a type whose total is the largest, first in table order among ties |
| UnitStats.FavoriteUnitsRule | src/engine/analyzer.js:455-484 | null exactly when the player has no typed unit in any match; otherwise each top unit has the full totals of its type and is maximal on its axis |
| UnitStats.Top | src/engine/analyzer.js:53-57 | a favourite found by the scan is the id and the axis value of an entry of the table |
| UnitStats.ExtractUnitStats | src/engine/analyzer.js:31-60 | each favourite, when there is one, is a type of the per-type table, with that type's summed value on its axis |
| UnitStats.CalculateFavoriteUnits | src/engine/analyzer.js:455-484 | each batch-wide favourite, when there is one, is an entry of the batch's per-type table, totals included |
| Records.Lookup | src/engine/analyzer.js:459 | looking a key up in a match's participant map finds an entry with that key, or reports that none has it |
| Teams.TallyEmptyIffUnnamed | src/engine/analyzer.js:94-101 | the named-team tally is empty exactly when nobody is named |
| Teams.InferredTeam | src/engine/analyzer.js:102-113 | team 1 exactly when the own delta is strictly closer to team 1's average; with no named players, team 1 exactly when the delta is non-negative |
| Teams.Normalize | src/engine/analyzer.js:106-116 | every participant ends up named, with team 0 or 1 and an id (the map key when missing); a named one keeps name and team-1 membership |
| Teams.UnnamedPlacement | src/engine/analyzer.js:94-116 | an unnamed participant is called "Unknown" and placed by the closer average delta, or by sign when nobody is named |
| Teams.NormalizeIdempotent | src/engine/analyzer.js:106-116 | normalising the written-back records gives the same participants again |
| Teams.InferWinner | src/engine/analyzer.js:119-128 | a declared winner is kept; otherwise 0 exactly when team 0's rated delta sum is strictly larger, else 1, never a draw |
| Teams.WinnerFollowsRatingSigns | src/engine/analyzer.js:119-128 | when team 0 only gained, the other side only lost and some delta is non-zero, team 0 is inferred as winner |
| Teams.InferredWinnerExample | src/engine/analyzer.js:119-128 | deltas +5 on team 0 and -5 on team 1 infer team 0 |
| Teams.ResolveOutcome | src/engine/analyzer.js:131-135 | draw exactly when the winner is 101; a win exactly for a non-draw whose player team is the winner; an absent player never wins |
| Teams.DeclaredWinnerOverridesRatingGain | src/engine/analyzer.js:119-134 | a player who gained rating still loses when the declared winner is the other team |
| Metrics.MemberWithinTeamSum | src/engine/analyzer.js:140-150 | a member's counter lies between 0 and its team's total |
| Metrics.NetInvestment | src/engine/analyzer.js:154 | net investment is spawned minus refunded, floored at 1 |
| Metrics.ShareBound | src/engine/analyzer.js:162-164 | a team share of a non-negative counter lies in [0, 1] |
| Metrics.AllMetrics | src/engine/analyzer.js:152-206 | one metrics record per participant, in order, with its id |
| Metrics.MetricsBounds | src/engine/analyzer.js:152-206 | for non-negative records every share and the survival rate lie in [0, 1], and every other metric is non-negative |
| Scoring.Population | src/engine/analyzer.js:211 | the population of a metric is that metric of every participant, in order |
| Scoring.CategoryScore | src/engine/analyzer.js:221-263 | a category score is the mean of its metrics' percentiles and lies in [0, 100] |
| Scoring.ScoreCategories | src/engine/analyzer.js:216-263 | all six category scores, each in [0, 100] |
| Scoring.WinScore | src/engine/analyzer.js:265 | 100 for a win, 50 for a draw, 0 otherwise |
| Scoring.WeightedWcsBounds | src/engine/analyzer.js:267-274 | with convex weights and scores in [0, 100], the weighted WCS lies in [0, 100] |
| Scoring.ScoreMatch | src/engine/analyzer.js:211-275 | an absent player gets neutral 50s and WCS 50; every result lies in [0, 100] |
| Config.WcsWeightsConvex | src/config.js:22-30 | the configured weights are non-negative and sum to 1 |
| Config.WcsLevelsDescending | src/config.js:33-40 | the level thresholds strictly descend and end at 0 |
| Config.FindLevel | src/engine/analyzer.js:377 | the first level whose threshold the score reaches, or none |
| Config.LevelOfIsLargestReached | src/engine/analyzer.js:377 | a non-negative score gets the level with the largest threshold it reaches; a negative one falls back to Poor |
| Sorting.SortDesc | src/engine/analyzer.js:329-330 | the sort is a permutation, descending by key, and stable (equal keys keep their order) |
| Sorting.SortHeadIsFirstMax | src/engine/analyzer.js:479-481 | the head of the stable descending sort is the first element with the largest key |
| Medals.InMedalConfig | src/engine/medals.js:7-17 | every medal stat is in the configuration table |
| Medals.AssignMedalsSpec | src/engine/medals.js:23-34 | assigning medals appends to each player exactly the medals earned, in table order, and changes nothing else |
| Medals.AssignMedals | src/engine/medals.js:23-34 | the roster keeps its length and order, and each row keeps everything except its medal list, which is only appended to |
| Records.StatOf | src/engine/medals.js:25-28 | a medal stat is the record's raw key of that name (`Destruction` and `Losses` are their own keys, not DestructionScore or LossesScore), never negative on a non-negative record |
| Medals.NoRawDestructionNoMedal | src/engine/medals.js:25-28 | when no player of a side has a raw `Destruction` value, nobody gets the Destruction medal, whatever their DestructionScore |
| Medals.OwedMedals | src/engine/medals.js:23-34 | a player gets a medal exactly when holding a positive team maximum of that stat, at most once per stat, valued at the maximum |
| Medals.SomeoneEarns | src/engine/medals.js:25-31 | a non-empty team with a positive maximum has a medal holder |
| Medals.TiedLeadersExample | src/engine/medals.js:28-30 | two players tied for the lead both get the medal, the third does not |
| Roster.FindMetrics | src/engine/analyzer.js:306 | the first metrics record with the participant's id, or none when no record has it |
| Roster.MapPlayer | src/engine/analyzer.js:303-327 | a roster row keeps the record, marks the player, scores net kills in thousands plus objectives, and takes favourites from the metrics when found |
| Roster.SidesPartition | src/engine/analyzer.js:329-330 | the ally and enemy sides split the participants as a multiset |
| Roster.SideRosterSpec | src/engine/analyzer.js:329-333 | each side is sorted by score, descending, and every row carries the medals earned within its side |
| Roster.SideRoster | src/engine/analyzer.js:329-333 | a side's roster has exactly one row per participant on that side |
| Roster.MyMedals | src/engine/analyzer.js:335-338 | the medals of the first ally row marked as the player, or none |
| MedalCounts.BumpSpec | src/engine/analyzer.js:337 | a bump adds one to its key, leaves other counts and key order alone, and appends a new key |
| MedalCounts.BumpAllSpec | src/engine/analyzer.js:336-338 | tallying adds each medal's occurrences to its count |
| MedalCounts.TopMedalsSpec | src/engine/analyzer.js:372-375 | the top medals are tallied keys in descending count order, and no omitted key has a higher count |
| MedalCounts.TopMedals | src/engine/analyzer.js:372-375 | two medals are named, or as many as were tallied when fewer |
| MedalCounts.TopMedalsExample | src/engine/analyzer.js:372-375 | Losses once and Destruction twice give [Destruction, Losses] |
| Playstyle.DimensionValue | src/engine/analyzer.js:419-422 | a dimension is the mean ratio times 50, rounded and capped at 100 |
| Playstyle.Dimensions | src/engine/analyzer.js:418-433 | one dimension per category, in category order |
| Playstyle.TopTwoDominates | src/engine/analyzer.js:436-437 | the top two dimensions are at least every other dimension, the first at least the second |
| Playstyle.LabelShapes | src/engine/analyzer.js:398-412 | seven two-category labels followed by six single-category labels |
| Playstyle.LabelIsFirstCovered | src/engine/analyzer.js:439-441 | as written, the label is the first whose categories are all among the top two, and one always exists (the "Balanced" fallback is never used) |
| Playstyle.IronFist | src/engine/analyzer.js:399-439 | top two battlefield and combat, in either order, give Iron Fist |
| Playstyle.ShadowedFallbackExample | src/engine/analyzer.js:439-440 | top two economy then battlefield give Dominator, the battlefield label, although economy leads |
| Playstyle.IntendedFollowsTopDimension | src/engine/analyzer.js:439-440 | with no two-category match, the intended choice is the label of the leading dimension; otherwise it agrees with the code |
| Playstyle.IntendedEconomistExample | src/engine/analyzer.js:440 | the intended choice for economy then battlefield is Economist |
| Playstyle.ComputePlaystyle | src/engine/analyzer.js:417-449 | six dimensions in category order, each at most 100 |
| Playstyle.PlaystyleLabel | src/engine/analyzer.js:417-449 | the two largest dimensions dominate the rest; the label is the first label in the table whose categories all lie among those two, so a single-category label for the second dimension can win; it is never Balanced |
| Playstyle.IntendedPlaystyle | src/engine/analyzer.js:417-449 | the corrected profile has the same dimensions as the program's |
| Playstyle.IntendedPlaystyleLabel | src/engine/analyzer.js:436-441 | with the corrected choice, the label is the first two-category label the top two cover, which is also the program's label, else the label of the largest dimension; never Balanced |
| Playstyle.ShadowedProfile | src/engine/analyzer.js:436-441 | whenever economy then battlefield are the top two dimensions, the program's profile is Dominator and the corrected one Economist |
| Playstyle.UniformProfileIsIronFist | src/engine/analyzer.js:436-439 | with all dimensions equal, the stable sort keeps battlefield and combat first, giving Iron Fist |
| Analyzer.StyleRatios | src/engine/analyzer.js:281-293 | each style ratio is the player's value over the match mean (`mean \|\| 1`), or 1 when that is not positive |
| Analyzer.AnalyzeMatch | src/engine/analyzer.js:89-354 | a match keeps its metadata; the winner is declared or inferred; a draw is never a win; WCS and categories lie in [0, 100]; the match counts toward the sums exactly when the player is present, and an absent player shows 50s and contributes zero; the two rosters cover every participant |
| Analyzer.AccumulateBounds | src/engine/analyzer.js:277-278 | over n valid matches the WCS and category sums lie in [0, 100n] |
| Analyzer.Accumulate | src/engine/analyzer.js:73-337 | after any prefix of the batch, the wins never exceed the matches seen, and the medal tally holds each key once with a positive count |
| Analyzer.WinsCounted | src/engine/analyzer.js:135 | the win counter is the number of won matches |
| Analyzer.MedalTally | src/engine/analyzer.js:335-338 | the tally of a medal is its total over the player's rows |
| Analyzer.MeanScores | src/engine/analyzer.js:361-362 | each mean category score times n is its sum, and lies in [0, 100] |
| Analyzer.WinRate | src/engine/analyzer.js:386 | the win rate is 100·wins/n rounded to the nearest integer, in [0, 100] |
| Analyzer.MeanWcs | src/engine/analyzer.js:359-360 | the batch WCS is the WCS sum over the number of matches, in [0, 100] |
| Analyzer.WcsSumSplit | src/engine/analyzer.js:215-277 | the summed WCS plus 50 for every match without the player equals the sum of the WCS values shown per match |
| Analyzer.WcsIsMeanWhenAlwaysPresent | src/engine/analyzer.js:277-360 | when the player is in every match, the summed WCS is the sum of the shown per-match WCS |
| Analyzer.WinsOfResults | src/engine/analyzer.js:134-135 | the win counter is the number of matches shown as won |
| Analyzer.TopMedalsOfResults | src/engine/analyzer.js:372-375 | the top medals were each earned at least once, in descending order of times earned, and no other medal was earned more often |
| Analyzer.Summarize | src/engine/analyzer.js:359-388 | the summary keeps the per-match rows, averages WCS and categories in range, counts wins among the rows, bounds the win rate, and picks at most two most-earned medals |
| Analyzer.ProcessFinalData | src/engine/analyzer.js:72-389 | the whole analysis: one row per match, the mean WCS in [0, 100], categories in range, wins counted from the rows, win rate in [0, 100], at most two top medals ranked by times earned |
| Analyzer.HalfWonBatch | src/engine/analyzer.js:386 | six wins out of twelve give a win rate of 50 |
| Analyzer.AnalyzeMatchRerun | src/engine/analyzer.js:106-128 | analysing the written-back match again gives the same result |
| Analyzer.ProcessFinalDataRerun | src/engine/analyzer.js:72-389 | analysing the written-back batch again gives the same summary |
| History.Get | src/utils/history.js:12-14 | nothing stored reads as the empty list |
| History.Save | src/utils/history.js:21-26 | the saved list has 1 to 10 entries, starts with the new entry (`name \|\| id`), and holds the id nowhere else |
| History.SaveSpec | src/utils/history.js:21-26 | after the new entry come the older entries with other ids, in order, cut to ten in all |
| History.SavedOnce | src/utils/history.js:23-24 | exactly one entry carries the saved id |
| History.SaveIdempotent | src/utils/history.js:21-26 | saving the same record twice equals saving it once |
| History.Remove | src/utils/history.js:32-35 | no entry with the removed id is left |
| History.RemoveIdempotent | src/utils/history.js:32-35 | removing twice equals removing once, and removing an absent id changes nothing |
| History.WithoutAppend | src/utils/history.js:23 | filtering a concatenation filters each part and keeps their order |
| History.SaveIntoEmptyExample | src/utils/history.js:21-26 | saving id 42 without a name into empty storage stores [{42, 42}] |
| Format.JsRem60 | src/utils/format.js:12 | the seconds part takes the sign of the duration, has magnitude below 60, and differs from it by a multiple of 60 |
| Format.DurationParts | src/utils/format.js:10-14 | a non-negative duration prints its whole minutes and the remaining seconds in [0, 60) |
| Format.ParseIntToString | src/utils/format.js:13 | printing an integer and reading it back gives the integer |
| Format.ParseFormatDuration | src/utils/format.js:10-14 | reading back the printed duration gives the duration, for every integer |
| Format.FormatDuration | src/utils/format.js:10-14 | the text ends in "s", starts with a minus sign exactly for a negative duration, and starts "0m " for a duration under a minute |
| Format.FormatDurationInjective | src/utils/format.js:10-14 | different durations print differently |
| Format.FormatDurationExamples | src/utils/format.js:10-14 | 125 prints "2m 5s" and -61 prints "-2m -1s" |
| Fetcher.RunLength | src/api/fetcher.js:16-24 | a greedy run covers only class characters and stops at the end or at a character outside the class |
| Fetcher.Leftmost | src/api/fetcher.js:16-24 | the first position from which the pattern matches, or none after the start |
| Fetcher.MatchesAtIffAccepts | src/api/fetcher.js:16-24 | the greedy matcher matches at a position exactly when the regular expression accepts some capture there, and it captures the longest one |
| Fetcher.FindSpec | src/api/fetcher.js:16-24 | `match` fails exactly when the expression matches nowhere, and otherwise returns the leftmost, longest capture |
| Fetcher.RewriteNone | src/api/fetcher.js:13-28 | there is no rewrite exactly when none of the three expressions matches |
| Fetcher.RewriteFirst | src/api/fetcher.js:13-28 | the rewrite uses the first expression, in the order tried, that matches, with its leftmost longest capture |
| Fetcher.ToBatraceUrlSpec | src/api/fetcher.js:13-28 | both halves together: absent exactly when nothing matches, else the first matching expression's target |
| Fetcher.ToBatraceUrl | src/api/fetcher.js:13-28 | a rewritten request always goes under the direct service's base URL, and its response is unwrapped exactly when the player-profile expression matched |
| Fetcher.ToBatraceUrlBase | src/api/fetcher.js:17-25 | every rewritten URL starts with the service base, and only the player-profile rewrite unwraps `data` |
| Fetcher.SingleMatchExample | src/api/fetcher.js:24-26 | "/stb/match/7" becomes the match lookup for id 7 |
| Fetcher.ToBatraceUrlEmpty | src/api/fetcher.js:27 | an empty path is not rewritten |

## Left out

- The UI (`src/ui/renderer.js`), `src/main.js`, i18n, `src/engine/units.js` and the offline scripts are not part of this model.
- Display-only fields are not modelled: localised labels, icons, Elo and gain strings, bar percentages, and the roster `kd`.
- `robustFetch` (the network, CORS proxies, retries and timeouts) is left out because it is I/O.
- The response transforms are closures in the source. They are tags (`UnwrapData`, `Identity`) here.
- `formatMatchTime` and `escapeHtml` are left out: they are clock and locale formatting, and HTML escaping, outside the scoring core.
- Local storage and JSON (de)serialisation become an `Option` of the stored list. A stored value that is not valid JSON (which makes `getHistory` throw) is not modelled.
- Floating point is not modelled. Arithmetic is exact, so NaN, infinities and rounding error do not arise. In particular an empty batch, for which `processFinalData` divides by zero and returns NaN, is excluded by `requires |matches| > 0`.
- `null` and `undefined` are not told apart: both are `None`. The source tests `meta.WinnerTeam === undefined` (`src/engine/analyzer.js:118`), so a `null` winner is not inferred, is not a draw, and no player wins that match; the model infers a winner instead. It also tests `p.NewRating !== undefined && p.OldRating !== undefined` (`src/engine/analyzer.js:121`), so a `null` rating enters the delta as 0 through JavaScript's number coercion; the model skips that participant.
- Ids are strings throughout. The source compares them with `String(...)`, which conflates a number and its decimal text; the model assumes ids already arrive as text.
- Format.FormatDuration: durations are whole seconds. Fractional durations, which the source would print with a fractional seconds part, are not modelled.
- Fetcher.ToBatraceUrl: the three regular expressions are modelled by their shape: literal text, a greedy capture of one class, literal text, and an optional end anchor. This is not a general regular-expression engine.
- Unit ids are natural numbers with 0 standing for a missing id. The source's string-keyed aggregation table iterates integer-like keys ascending, which is what the ascending table models.

## Findings

| source | as written | input that shows it | evidently intended | confidence | as-written member | corrected member |
|---|---|---|---|---|---|---|
| src/engine/analyzer.js:439-441 | the first `find` accepts any label whose categories are all among the top two, so a single-category label matches when its category is second; the fallback for the leading dimension and "Balanced" are never reached | top two economy then battlefield: the label is Dominator (battlefield) | when no two-category label fits, label by the leading dimension (economy gives Economist) | medium, not executed | Playstyle.ShadowedProfile | Playstyle.IntendedPlaystyleLabel |

`Playstyle.LabelIndex` and `Playstyle.ChooseLabel` model the choice as written, and `Playstyle.ComputePlaystyle`, and with it the whole analysis (`Analyzer.Summarize`, `Analyzer.ProcessFinalData`), uses it, as the program does. `Playstyle.IntendedIndex` is the corrected choice, and `Playstyle.IntendedPlaystyle` is the profile labelled with it. The two agree whenever a two-category label fits the top two dimensions (`Playstyle.IntendedFollowsTopDimension`). They differ only when the second dimension alone has a label earlier in the table than the first's.
