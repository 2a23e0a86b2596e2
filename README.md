# Haxball tournament progression, modelled in Dafny

This project models the server-side core of a small Haxball tournament
application. The application keeps a table of registered players and a
table of matches. It also keeps one status row that records how far the
tournament has got.

A tournament runs as follows:

- a round-robin GROUP phase in which every player meets every other player once;
- a KNOCKOUT phase with two semi-finals between the top four players by points, shuffled;
- a final between the two semi-final winners.

Recording the score of the final names the champion. A reset wipes all
matches and all stats, and keeps the players.

The model follows the structure of the code:

| file | module | models |
|---|---|---|
| types.dfy | `Types` | the records of `src/types/index.ts`, the service errors, fresh ids |
| database.dfy | `Database` | the store: player table, match table, status row, id counter; its validity and consistency invariants |
| tables.dfy | `Tables` | the query primitives: `where` filters, `findFirst`, `orderBy points desc`, `orderBy completed asc` |
| standings.dfy | `Standings` | wins and losses a match table gives each player; total points |
| player_service.dfy | `PlayerService` | `src/lib/services/player-service.ts` |
| match_service.dfy | `MatchService` | `src/lib/services/match-service.ts` |
| round_robin.dfy | `RoundRobin` | the pairing order of the nested loop of `generateAllGroupMatches` |
| tournament_service.dfy | `TournamentService` | `src/lib/services/tournament-service.ts` |
| scores_route.dfy | `ScoresRoute` | `POST /api/matches/scores` |
| matches_route.dfy | `MatchesRoute` | `GET` and `POST /api/matches` |

**The store.** The database is a class `Store` with four fields: the player
table, the match table, the status row and an id counter. The status row is
an `Option`, because it does not exist until it is first created. Every
service that writes is a method on a `Store`, with a `modifies` clause.
Every query is a function of a table.

The store's invariant is `Valid()`:

- ids are non-empty and unique in each table;
- every player satisfies points = wins and matchesPlayed = wins + losses;
- every completed match has two unequal scores and names the higher scorer as winner;
- every match refers to registered players.

A second invariant, `Consistent()`, says two things:

- every player's wins and losses are those the completed matches give them;
- a champion, once set, won a completed final.

Every operation preserves `Valid()`. Every operation except `updatePlayerStats` preserves `Consistent()`. `updatePlayerStats` changes one player's stats without touching the match table, and it runs only inside `updateMatchScore`, once per slot of the match being scored.

A third property, `NoSelfMatches`, says every match joins two different players. `Database.TotalPointsInvariant` needs it. Every write keeps it, with two exceptions (see "## Left out"). `createMatch` itself accepts a self-match. `generateFinalMatch` keeps it only when the first two semi-finals share no player. Semi-finals made by `generateSemiFinalMatches` on a table without semi-finals share no player, and scoring keeps them apart.

**Loops.** `generateAllGroupMatches` is a `while` loop over i with an
inner `while` loop over j. Both carry invariants that tie the match table to
a prefix of the specification `GroupFixtures`. The shuffle
`sort(() => 0.5 - Math.random())` becomes a parameter `order`, which can be
any permutation of the four positions.

**Routes.** The routes become a method per handler. Each handler answers
with a `Result`: a failure carries the error that the route turns into a
4xx or 500 answer.

**Database behaviour the model fixes.**

- **Ids.** The k-th record the store creates gets id `FreshId(k)`, a string of length k + 1. A new id is therefore never equal to an existing one.
- **Ordering.** A `findMany` without `orderBy` lists rows in insertion order. An `orderBy` is a stable sort.
- **Updates.** An `update` of the missing status row fails with `StatusRecordMissing`.
- **Foreign keys.** Every match's player columns reference the player table. A `create` that breaks this fails with `ForeignKeyViolation`.
- **Enums.** A phase or round string that is not one of the enum values fails with `InvalidEnumValue`.

**Behaviour of the code worth noting:**

- `updateMatchScore` does not reject negative scores; only the score route does (`src/app/api/matches/scores/route.ts:24-29`).
- `generateFinalMatch` accepts two or more semi-finals, all completed; it does not require exactly two. It uses the first two (`src/lib/services/tournament-service.ts:180`, `209-210`).
- `checkAndCompleteGroupPhase` closes the group phase even when there are no GROUP matches at all (`src/lib/services/tournament-service.ts:92-96`).
- `checkAndCompleteGroupPhase` and `resetTournament` do not create the status row; they fail when it is missing. `resetTournament` fails only after it has cleared the tables.
- `createMatch` itself accepts a match of a player against themselves. Only `POST /api/matches` refuses one. Such a match would count twice for that player, once per slot. `Database.TotalPointsInvariant` therefore assumes there are no self-matches.
- `createMatch` checks for a repeated pairing only in the GROUP phase (`src/lib/services/match-service.ts:56`). So `POST /api/matches` can add semi-finals that share a player. If that player wins both, `generateFinalMatch` pairs them with themselves (`src/lib/services/tournament-service.ts:209-227`).
- `createPlayer` does not reject an empty name.

## Model

| member | source | states |
|---|---|---|
| Database.TotalPointsInvariant | src/lib/services/player-service.ts:47-54 | in a valid, consistent store without self-matches, the players' points add up to the number of completed matches |
| RoundRobin.ScheduleFacts | src/lib/services/tournament-service.ts:70-71 | the nested loop visits n(n-1)/2 pairs of positions: exactly the pairs a < b < n, in strictly increasing order, none twice |
| RoundRobin.ScheduleAt | src/lib/services/tournament-service.ts:70-71 | the pair (i, j) is visited at step RowStart(n, i) + (j - i - 1) |
| Tables.OrderByPointsIsStable | src/lib/services/player-service.ts:4-10 | sorting by points descending keeps, for every points value, the players holding it in table order |
| PlayerService.GetAllPlayers | src/lib/services/player-service.ts:4-10 | every player exactly once (same multiset), points non-increasing |
| PlayerService.GetPlayerById | src/lib/services/player-service.ts:12-16 | a result exactly when the id is registered, and then a stored record with that id |
| PlayerService.GetTopPlayers | src/lib/services/player-service.ts:26-33 | min(count, n) players, points non-increasing, drawn from the table, and no player left out has more points than a player taken |
| PlayerService.TopPlayersDistinct | src/lib/services/player-service.ts:26-33 | with unique ids in the table, the top players are distinct players |
| PlayerService.ApplyResult | src/lib/services/player-service.ts:47-54 | the winner gets +1 point, +1 win, +1 match; the loser +1 loss, +1 match; id and name unchanged; points = wins and matchesPlayed = wins + losses are kept |
| PlayerService.CreatePlayer | src/lib/services/player-service.ts:18-24 | appends one player with the given name, zero stats and an id not yet registered; all other rows unchanged; invariants kept |
| PlayerService.UpdatePlayerStats | src/lib/services/player-service.ts:35-56 | fails with PlayerNotFound, changing nothing, exactly when the id is unknown; otherwise replaces that one record by its ApplyResult and changes nothing else |
| MatchService.GetAllMatches | src/lib/services/match-service.ts:5-16 | every match exactly once, unplayed ones before completed ones |
| MatchService.GetMatchById | src/lib/services/match-service.ts:18-27 | a stored match with that id, or none exactly when no match has it |
| MatchService.GetMatchesByPhase | src/lib/services/match-service.ts:29-41 | exactly the matches of that phase, unplayed ones first |
| MatchService.GetMatchesByRound | src/lib/services/match-service.ts:43-52 | exactly the matches of that round |
| MatchService.GetIncompleteMatchesCount | src/lib/services/match-service.ts:130-134 | the number of unplayed matches: together with the completed ones it makes up the whole table; zero exactly when every match is completed |
| MatchService.GetAllGroupMatches | src/lib/services/match-service.ts:136-145 | exactly the GROUP matches |
| MatchService.GetCompletedGroupMatches | src/lib/services/match-service.ts:147-159 | exactly the completed GROUP matches |
| MatchService.GetIncompleteGroupMatches | src/lib/services/match-service.ts:161-173 | exactly the unplayed GROUP matches |
| MatchService.GetKnockoutMatches | src/lib/services/match-service.ts:175-184 | exactly the KNOCKOUT matches |
| MatchService.GetSemiFinalsMatches | src/lib/services/match-service.ts:186-198 | exactly the KNOCKOUT/SEMI_FINAL matches |
| MatchService.GetFinalMatch | src/lib/services/match-service.ts:200-212 | a KNOCKOUT/FINAL match of the table, or none exactly when there is no final |
| MatchService.CreateMatchError | src/lib/services/match-service.ts:54-88 | createMatch succeeds exactly when the input is not a GROUP pairing that already exists in either order and both players are registered; a repeated GROUP pairing is reported as DuplicateGroupMatch |
| MatchService.CreateMatch | src/lib/services/match-service.ts:54-88 | on failure nothing changes; on success exactly one unplayed match with a fresh id, no scores and no winner is appended; invariants kept |
| MatchService.CreateKeepsGroupPairsUnique | src/lib/services/match-service.ts:56-77 | a match that passes the duplicate check keeps "no two GROUP matches join the same pair" |
| MatchService.WinnerOf | src/lib/services/match-service.ts:112 | the winner is the player with the strictly higher score |
| MatchService.Scored | src/lib/services/match-service.ts:119-127 | the rewritten match is completed, keeps its id, players, phase and round, stores both scores and names the higher scorer as winner |
| MatchService.UpdateScoreError | src/lib/services/match-service.ts:90-109 | the score is refused exactly when the match is unknown, already completed, or the scores are equal; negative scores are not refused |
| MatchService.ScoredOnce | src/lib/services/match-service.ts:103-105 | once a match has been scored, every later score for it is refused with MatchAlreadyCompleted |
| MatchService.RecordResultCredits | src/lib/services/match-service.ts:114-116 | the two updatePlayerStats calls give each player exactly the win or loss the new result gives them, and change nobody else |
| MatchService.RecordKeepsConsistency | src/lib/services/match-service.ts:111-127 | recording a score keeps every player's stats equal to the wins and losses of the completed matches |
| MatchService.ScoredKeepsNoSelf | src/lib/services/match-service.ts:119-127 | writing a score keeps both player columns, so a table without self-matches stays without |
| MatchService.RecordScore | src/lib/services/match-service.ts:114-127 | the success path of updateMatchScore: the match at that position is rewritten as Scored, both players are credited through RecordResult, nothing else changes, and both invariants are kept |
| MatchService.CreditBoth | src/lib/services/match-service.ts:115-116 | the two updatePlayerStats calls, neither of which can fail here, leave the player table equal to RecordResult of the match; the other tables are unchanged |
| MatchService.UpdateMatchScore | src/lib/services/match-service.ts:90-128 | the three refusals change nothing; otherwise that match is rewritten as scored, both players are credited, nothing else changes, invariants kept; a table without self-matches stays without |
| TournamentService.InitializeTournamentStatus | src/lib/services/tournament-service.ts:11-26 | the status row exists afterwards; an existing row is left as it is, so a second call changes nothing; a new row has the defaults |
| TournamentService.GetTournamentStatus | src/lib/services/tournament-service.ts:28-51 | the status row, created with the defaults if missing, plus the champion's record; in a consistent store a set champion id always finds its player |
| TournamentService.ChampionIsRegistered | src/lib/services/tournament-service.ts:40-45 | a champion id names a registered player who won a completed final |
| TournamentService.GroupFixturesShape | src/lib/services/tournament-service.ts:67-85 | the group fixtures are n(n-1)/2 GROUP matches with no round, unplayed, with no scores and no winner |
| TournamentService.GroupFixturesCover | src/lib/services/tournament-service.ts:70-85 | for each two positions a < b of the player listing, a fixture puts player a in the first slot and player b in the second |
| TournamentService.GroupFixturesDistinct | src/lib/services/tournament-service.ts:70-85 | no two fixtures join the same two players, in either order |
| TournamentService.GroupFixturesNoSelf | src/lib/services/tournament-service.ts:69-75 | with distinct ids in the listing, every group fixture joins two different players |
| TournamentService.GenerateAllGroupMatches | src/lib/services/tournament-service.ts:53-88 | fails, creating nothing, with fewer than 2 players or when a GROUP match exists; succeeds exactly otherwise, appending exactly the group fixtures in loop order; a table without self-matches stays without |
| TournamentService.InsertFixtures | src/lib/services/tournament-service.ts:67-87 | the outer loop appends exactly the group fixtures, returns them, and keeps the invariants |
| TournamentService.GenerateRow | src/lib/services/tournament-service.ts:71-85 | one pass of the inner loop extends the table by the fixtures of row i |
| TournamentService.VisitPair | src/lib/services/tournament-service.ts:72-83 | the createMatch call of the inner loop never fails, and appends the fixture of that step |
| TournamentService.AfterGroupCheck | src/lib/services/tournament-service.ts:90-108 | the status row is left as it is while a GROUP match is unplayed; once none is, an existing row reads groupCompleted and KNOCKOUT, with id, knockoutCreated and championId unchanged |
| TournamentService.GroupPhaseOverMeans | src/lib/services/tournament-service.ts:92-96 | the group phase is over exactly when every GROUP match is completed |
| TournamentService.GroupCheckIdempotent | src/lib/services/tournament-service.ts:90-108 | repeating the group check changes nothing more |
| TournamentService.CheckAndCompleteGroupPhase | src/lib/services/tournament-service.ts:90-108 | false with no change while a GROUP match is unplayed; otherwise true and the group phase closed, or StatusRecordMissing when there is no status row; only the status row changes |
| TournamentService.ShuffleKeepsPlayers | src/lib/services/tournament-service.ts:140 | the shuffle holds exactly the four players it shuffles, each once |
| TournamentService.ShuffledTopFour | src/lib/services/tournament-service.ts:129-140 | the semi-finalists are four distinct registered players, and nobody left out has more points than one of them |
| TournamentService.SemiFinalsApart | src/lib/services/tournament-service.ts:143-155 | semi-finals made from four distinct players each join two different players, and the two share no player |
| TournamentService.FreshSemiFinalsFirst | src/lib/services/tournament-service.ts:143-155 | added to a table without semi-finals, the two new semi-finals are the table's first two |
| TournamentService.CreateSemiFinals | src/lib/services/tournament-service.ts:143-161 | the match table grows by exactly the two semi-finals, so neither createMatch call fails; knockoutCreated is set, the player table is unchanged, and both invariants are kept |
| TournamentService.GenerateSemiFinalMatches | src/lib/services/tournament-service.ts:110-170 | fails without creating anything before the group phase is completed, once the knockout is created (returning the existing semi-finals), or with fewer than 4 players; otherwise appends semi-finals pairing positions 0-1 and 2-3 of the shuffled top four and sets knockoutCreated; a table without self-matches stays without, and when the table held no semi-final the new ones share no player |
| TournamentService.SemiFinalWinnerKnown | src/lib/services/tournament-service.ts:208-217 | in a valid store the first two completed semi-finals name registered winners, so "Could not determine winners" cannot occur |
| TournamentService.SemiFinalColumnsKept | src/lib/services/match-service.ts:119-127 | rewriting one row with its players, phase and round kept leaves the player columns of the semi-final list as they were |
| TournamentService.ScoringKeepsSemiFinalsApart | src/lib/services/match-service.ts:119-127 | scoring any match keeps the first two semi-finals free of a shared player |
| TournamentService.ApartSemiFinalsWinnersDiffer | src/lib/services/tournament-service.ts:209-227 | completed first semi-finals that share no player have different winners, so the final joins two different players |
| TournamentService.GenerateFinalMatch | src/lib/services/tournament-service.ts:172-250 | fails without creating anything unless at least two semi-finals exist and all are completed; returns an existing final without creating one; otherwise appends one unplayed KNOCKOUT/FINAL match between the winners of the first two semi-finals; a table without self-matches stays without when those two semi-finals share no player |
| TournamentService.CreateFinal | src/lib/services/tournament-service.ts:221-249 | the final's createMatch succeeds, and the re-read finds the new row |
| TournamentService.RefetchFindsNew | src/lib/services/tournament-service.ts:229-244 | looking up the last inserted match by its id finds it |
| TournamentService.ChampionFrom | src/lib/services/tournament-service.ts:255-272 | a champion is the winner of a completed final; in a table of well-formed matches there is none only when no final is completed |
| TournamentService.AfterKnockoutCheck | src/lib/services/tournament-service.ts:274-292 | a champion already set is never overwritten; without a completed final nothing changes; otherwise the first final's winner becomes champion |
| TournamentService.CompleteKnockoutPhase | src/lib/services/tournament-service.ts:252-293 | only the status row changes, to AfterKnockoutCheck, and the result is true exactly when it changed |
| TournamentService.ResetStats | src/lib/services/tournament-service.ts:299-307 | every player is kept with its id and name and all four stats at zero |
| TournamentService.ResetStatsFacts | src/lib/services/tournament-service.ts:299-307 | the reset keeps the id column, and leaves stats that agree with an empty match table and add up to zero points |
| TournamentService.ResetTournament | src/lib/services/tournament-service.ts:295-319 | the match table is empty (so without self-matches), stats are zero, the status row is back to the defaults, or StatusRecordMissing after clearing when there is no row |
| ScoresRoute.RequestError | src/app/api/matches/scores/route.ts:10-29 | the body is accepted exactly when id and both scores are present and the scores are unequal and non-negative; a missing field is reported first |
| ScoresRoute.Post | src/app/api/matches/scores/route.ts:6-46 | a refused body or a refused update changes nothing; otherwise the score is stored and both players credited, then the group check and then the knockout check update the status row; the 500 answer exactly when the group phase is over and there is no status row; a table without self-matches stays without, and first semi-finals that share no player keep sharing none |
| ScoresRoute.LastGroupMatchClosesGroupPhase | src/app/api/matches/scores/route.ts:32-35 | scoring the last unplayed GROUP match moves the status to groupCompleted and KNOCKOUT in the same request |
| ScoresRoute.OpenGroupMatchKeepsPhase | src/app/api/matches/scores/route.ts:32-35 | while another GROUP match is unplayed, the phase fields of the status row stay as they were |
| ScoresRoute.FinalScoreCrownsWinner | src/app/api/matches/scores/route.ts:32-38 | scoring the first completed final, with no champion set, makes its winner champion |
| MatchesRoute.Get | src/app/api/matches/route.ts:15-83 | whatever GET lists or returns comes from the match table; it fails only with not-found for an id or an unknown phase |
| MatchesRoute.GetById | src/app/api/matches/route.ts:24-30 | an id parameter takes precedence: that match, or not-found exactly when no match has the id |
| MatchesRoute.GetSemiFinals | src/app/api/matches/route.ts:33-37 | `phase=KNOCKOUT&type=semifinals` lists exactly the semi-finals |
| MatchesRoute.GetFinal | src/app/api/matches/route.ts:38-51 | `phase=KNOCKOUT&type=final` answers a final, or null exactly when there is none |
| MatchesRoute.GetByPhase | src/app/api/matches/route.ts:54-59 | any other known phase lists exactly the matches of that phase, unplayed ones first |
| MatchesRoute.GetFails | src/app/api/matches/route.ts:15-83 | GET fails exactly for an unknown id, or without an id for a phase that is neither GROUP nor KNOCKOUT |
| MatchesRoute.GetDefault | src/app/api/matches/route.ts:72-75 | without id and phase, every match exactly once, unplayed ones first |
| MatchesRoute.StatusIgnored | src/app/api/matches/route.ts:54-70 | the status parameter never changes the answer |
| MatchesRoute.CompletedQueryListsPending | src/app/api/matches/route.ts:61-70 | `phase=GROUP&status=completed` lists an unplayed GROUP match |
| MatchesRoute.GetIntended | src/app/api/matches/route.ts:61-70 | with the status branch taken, `status=completed` and `status=incomplete` list exactly the completed and the unplayed GROUP matches |
| MatchesRoute.IntendedStatusFilters | src/app/api/matches/route.ts:61-70 | under the intended GET, a GROUP match is listed for `completed` exactly when completed, and for `incomplete` exactly when not |
| MatchesRoute.RequestError | src/app/api/matches/route.ts:89-101 | MissingFields exactly when a player id or the phase is absent or empty; SelfMatch exactly when both ids are equal; accepted exactly when all are present, the ids differ and the phase is known |
| MatchesRoute.PostError | src/app/api/matches/route.ts:85-110 | POST fails exactly when the body is refused, the round is unknown or createMatch refuses the input; a repeated GROUP pairing is always reported as such |
| MatchesRoute.Post | src/app/api/matches/route.ts:85-110 | a refused request creates nothing; an accepted one appends exactly the match createMatch makes, between two different players, and keeps GROUP pairings unique and the table without self-matches |

## Left out

- User interface: the pages and components, their polling, and the client-side form checks. This is presentation only.
- Database I/O as such. The tables are in-memory sequences. `async`/`await` and `console.log` have no effect on the model.
- The `include` joins (`player1`, `player2`, `winner`): queries return bare match records. The joined records are the player rows the foreign keys name.
- The generated database ids, which are replaced by the counter-based `FreshId`. The Prisma schema is not part of this model: the foreign keys and enum columns are inferred from `src/types/index.ts`.
- The order of rows with equal sort keys. The model lists them in table order; the database promises no order for ties.
- `Math.random` in the shuffle, which is replaced by the `order` parameter: any permutation of the four top players.
- Concurrency and atomicity across requests. Each request runs to completion before the next one.
- HTTP status codes and JSON framing: a route answers with a success value or an error.
- JSON values of the wrong type: a score that is `null` or not a number, or an id that is not a string. An absent field is `None`; a present one has the right type.
- JavaScript numbers are doubles, but scores are unbounded integers: fractional and out-of-range scores are not modelled.
- The thin wrappers `src/app/api/tournament/*`, `src/app/api/players/route.ts` and `src/app/api/users/route.ts` are not part of this model. They only map service results to HTTP answers or concern an unrelated table.
- Three error branches of the source cannot be taken in a valid store, and the model proves they are unreachable instead of modelling them:
  - the "Failed to get tournament status" throw (`tournament-service.ts:36-38`);
  - "Could not determine winners from semi-finals" (`tournament-service.ts:212-217`);
  - "Failed to create final match" (`tournament-service.ts:239-244`).
- The failure of an `updatePlayerStats` call inside `updateMatchScore`: the foreign keys guarantee that both players exist.
- TotalPointsInvariant: it needs a match table without self-matches. Every write keeps that property except two. `MatchService.CreateMatch` itself accepts a self-match; the group and semi-final generators and `POST /api/matches` always pass two different players. `TournamentService.GenerateFinalMatch` keeps it only when the first two semi-finals share no player. Semi-finals added through `POST /api/matches` may share one. If that player wins both, the final joins them with themselves, and from then on the points no longer add up to the completed matches. The model records this case and does not exclude it.
- PlayerService.GetTopPlayers: `count` is a natural number. The code only ever asks for 4, and a negative `take` is not modelled.

## Findings

| source | as written | input that shows it | evidently intended | confidence | as-written member | corrected member |
|---|---|---|---|---|---|---|
| src/app/api/matches/route.ts:54-70 | the `if (phase)` branch returns for every non-empty phase, so the later `phase === 'GROUP' && status` branch can never run | `GET /api/matches?phase=GROUP&status=completed` on a table holding one unplayed GROUP match lists that match | `status=completed` / `status=incomplete` list only the completed / unplayed GROUP matches | medium, by reading the branch order; not executed | `MatchesRoute.CompletedQueryListsPending` | `MatchesRoute.GetIntended` |
