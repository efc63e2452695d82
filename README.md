# Live football scoreboard, modelled in Dafny

The scoreboard keeps the matches currently being played. Starting a match creates a `Match` holding:
- the two team names;
- two scores, both starting at 0;
- the moment the match was started.

The scoreboard files the match twice, as the same object:
- in a map, under the pairing key `"<home> vs <away>"`;
- in a list ordered by start time, newest first.

The summary renders that list as ranked lines of the form `"<rank>. <home> <homeScore> - <away> <awayScore>"`.

The project has four modules:

- `Decimal` (`decimal.dfy`): the decimal spelling of a whole number, as a template literal shows it. It also reads a digit string back, which the rank lemmas use.
- `Matches` (`match.dfy`): the `Match` class and its constructor.
- `Scoreboards` (`scoreboard.dfy`): the `Scoreboard` class. It contains:
  - the `matches` map and the `sortedMatches` list;
  - `StartMatch` and `GetSummary`;
  - the invariant `Valid()` that ties the two views to a ghost history `started` of every match `StartMatch` created;
  - the reference definition `PushAndSort` of "push, then stable sort by descending start time" on a list that is already newest first, with its lemmas;
  - the loop `InsertByStartTime` that is proved to compute it on such a list.
- `Scenarios` (`scenarios.dfy`): the repository's usage examples, replayed against the contracts.

The clock is a parameter, `now: nat`. `PushAndSort` places a new match ahead of the matches at the end of the list that started strictly earlier. A match started at the same time as one already listed is ranked behind it. This is what a stable sort with the comparator `b.startTime - a.startTime` does.

## Model

| member | source | states |
|---|---|---|
| Matches.Match.constructor | src/match.ts:8-14 | both names are stored exactly as given, both scores are 0, and the start time is the clock reading passed in; nothing is validated |
| Scoreboards.Scoreboard.constructor | src/scoreboard.ts:4-5 | a new board has an empty map, an empty list and no history, and satisfies the invariant |
| Scoreboards.MatchKey | src/scoreboard.ts:8 | the key is the home name, then `" vs "`, then the away name, with nothing else |
| Scoreboards.Consistent | src/scoreboard.ts:4-5 | the invariant over map, list and history: the history has no repeats, the list is a newest-first rearrangement of it, the map is what filing the history leaves; it implies one list entry per started match |
| Scoreboards.Scoreboard.Valid | src/scoreboard.ts:4-5 | the board's fields satisfy `Consistent`, so the list holds one entry per started match |
| Scoreboards.PushAndSort | src/scoreboard.ts:12-13 | the reference definition of push-then-stable-sort on a newest-first list: one entry longer than the old list, with the new match moved ahead of the trailing strictly older matches |
| Scoreboards.Scoreboard.StartMatch | src/scoreboard.ts:7-14 | one match is created and appended to the history, with the given names, scores 0 and start time `now`; the map gains or overwrites the key `home + " vs " + away` with it; the list becomes `PushAndSort` of the old list and the new match; the invariant (list a newest-first permutation of the history, map = last match filed per key) is kept |
| Scoreboards.StartKeepsConsistent | src/scoreboard.ts:11-13 | filing a new match under its key and inserting it into the list keeps the invariant over map, list and history |
| Scoreboards.LatestSnoc | src/scoreboard.ts:11 | filing one more match overwrites (or adds) exactly its own key |
| Scoreboards.LatestValues | src/scoreboard.ts:11 | every value in the filed map is a started match, filed under its own pairing key |
| Scoreboards.LatestKeys | src/scoreboard.ts:11 | every started match's pairing key is in the filed map |
| Scoreboards.LatestSize | src/scoreboard.ts:11-12 | the map never holds more entries than matches were started |
| Scoreboards.InsertByStartTime | src/scoreboard.ts:12-13 | on a newest-first list, the insertion loop computes exactly push-then-stable-sort, `PushAndSort` |
| Scoreboards.PushAndSortPermutes | src/scoreboard.ts:12-13 | the new list is the old list plus the new match as a multiset: nothing added, dropped or duplicated |
| Scoreboards.PushAndSortSorted | src/scoreboard.ts:13 | a newest-first list stays newest first after the insertion |
| Scoreboards.PushAndSortPlacement | src/scoreboard.ts:12-13 | the new match lands ahead of exactly the trailing run of strictly older matches, and the other matches keep their relative order |
| Scoreboards.PushAndSortBehindNotOlder | src/scoreboard.ts:13 | in a newest-first list every match left ahead of the new one started at the same time or later (equal times keep the earlier call in front) |
| Scoreboards.OlderSuffixStops | src/scoreboard.ts:13 | the trailing run of older matches stops at a match that is not older |
| Scoreboards.PushAndSortNewestFirst | src/scoreboard.ts:13 | a match started strictly after every listed match goes to index 0 |
| Scoreboards.Scoreboard.NewestRankedFirst | src/scoreboard.ts:12-13 | on any valid board, the latest match heads the list when it started strictly after every earlier match |
| Scoreboards.Scoreboard.ViewsAgree | src/scoreboard.ts:4-5 | every match in the map is in the list and is filed under its own key, and every listed match has its key in the map |
| Scoreboards.Scoreboard.ListCoversMap | src/scoreboard.ts:11-12 | the list holds exactly one entry per `StartMatch` call, and so at least as many as the map |
| Scoreboards.RenderLine | src/scoreboard.ts:19-21 | the line template: it starts with the rank's digits and `". "`, and its length is the parts' lengths plus the 7 separator characters |
| Scoreboards.SummaryLine | src/scoreboard.ts:18-21 | a match's line renders its current names and scores through the template, and reading its rank back gives the rank it was written with |
| Scoreboards.SummaryFrom | src/scoreboard.ts:17-22 | one line per match, in list order, line i ranked `first + i` |
| Scoreboards.Scoreboard.GetSummary | src/scoreboard.ts:16-23 | one line per list entry; line i renders the match at index i with rank i + 1; being a function it changes nothing |
| Scoreboards.RenderLineRank | src/scoreboard.ts:19 | a summary line starts with its rank: reading its leading digits gives the rank back |
| Scoreboards.Scoreboard.SummaryRanks | src/scoreboard.ts:17-21 | the ranks read off the summary run 1, 2, 3, ... |
| Decimal.NatToString | src/scoreboard.ts:19-21 | the decimal spelling of a number is non-empty, all digits, and starts with 0 only for 0 |
| Decimal.DigitsValueOfNatToString | src/scoreboard.ts:19-21 | reading a spelled number back gives the number |
| Decimal.NatToStringInjective | src/scoreboard.ts:19-21 | different numbers are spelled differently |
| Decimal.LeadingDigitsOfDigitsThen | src/scoreboard.ts:19 | the leading digits of a digit string followed by a non-digit are that digit string |
| Scenarios.NewMatchScenario | tests/match.test.ts:11-18 | a new Brazil–North Korea match keeps both names and starts at 0–0 |
| Scenarios.StartTimeScenario | tests/match.test.ts:20-27 | the start time lies between clock readings taken just before and just after construction |
| Scenarios.StartOneScenario | tests/scoreboad.test.ts:14-18 | one started match gives the one-line summary for Australia 0 - Cuba 0 |
| Scenarios.NewestFirstScenario | tests/scoreboad.test.ts:20-34 | with a later start, Mongolia–Canada is ranked 1 and Australia–Cuba 2 |
| Scenarios.SameTickScenario | src/scoreboard.ts:12-13 | two matches started at the same clock reading are ranked in call order |
| Scenarios.DuplicateStartScenario | src/scoreboard.ts:11-12 | starting the same pairing twice leaves one key pointing at the second match and two entries in the list |
| Scenarios.NoValidationScenario | src/match.ts:8-14 | empty names and a team playing itself are filed under `" vs "` and `"Brazil vs Brazil"` |
| Scenarios.AustraliaCubaFirst | tests/scoreboad.test.ts:17 | the expected line text `"1. Australia 0 - Cuba 0"` is what the summary renders |
| Scenarios.AustraliaCubaSecond | tests/scoreboad.test.ts:32 | the expected line text `"2. Australia 0 - Cuba 0"` is what the summary renders |
| Scenarios.MongoliaCanadaFirst | tests/scoreboad.test.ts:31 | the expected line text `"1. Mongolia 0 - Canada 0"` is what the summary renders |
| Scenarios.MongoliaCanadaSecond | src/scoreboard.ts:17-21 | the line `"2. Mongolia 0 - Canada 0"` for the same-tick ordering |
| Scenarios.NamelessFirst | src/scoreboard.ts:17-21 | a match with empty names is rendered like any other, as `"1.  0 -  0"` |
| Scenarios.ScenarioKeys | src/scoreboard.ts:8 | the pairing keys the scenarios file, spelled out |

## Left out

- `Date.now()` is not modelled. The clock reading is the `now` parameter of `StartMatch` and of the `Match` constructor, and no monotonic clock is assumed.
- Matches.Match.constructor: the test's "between the readings before and after" bound reduces to `startTime == now`. `Scenarios.StartTimeScenario` states the bound for any `before <= now <= after`.
- The `setTimeout` delays between starts in the tests are not modelled. The scenarios pass strictly increasing clock readings instead.
- `Match.homeTeam`, `Match.awayTeam` and `Match.startTime` are `const`. TypeScript would allow assigning them later, but no code does. `homeScore` and `awayScore` stay mutable fields.
- JavaScript `number` is not modelled: scores, times and ranks are `nat`, with no floating point and no `NaN`. The comparator `b.startTime - a.startTime` is read as a comparison of start times.
- The internals of `Array.prototype.sort` are not modelled. The model assumes it is stable, as ECMAScript has required since 2019, and specifies push-then-sort by the stable insertion `PushAndSort`. The list is sorted before every push, so inserting gives the same result as sorting. `InsertByStartTime` therefore requires a newest-first list, which `Valid()` guarantees at every `StartMatch`.
- `updateScore` is not modelled. tests/scoreboad.test.ts:36-65 calls it and expects matches ranked by total score, but src/scoreboard.ts has no such method and ranks by start time alone.
- The error checks are not modelled. src/constants.ts:1-5 names messages for a negative score, a missing match, a match already on the board, a team playing itself and teams already playing. src/scoreboard.ts rejects nothing and uses none of them: a repeated pairing is filed again, the map entry overwritten and a second list entry added (`Scenarios.DuplicateStartScenario`).
- Aliasing outside the board is not modelled: no code in src/ or tests/ holds a `Match` and changes its scores, so the summary is stated in terms of the objects' current fields.
- `sortedMatches` is a value `seq` that `StartMatch` reassigns, not an array that `push` and `sort` change in place. No code in src/ or tests/ holds a second reference to that array, so no behaviour is lost.
