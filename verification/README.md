# Live scoreboard — Dafny model

This project models the core of a live football scoreboard: an in-memory service that starts matches, updates their scores, finishes them, and lists a ranked summary of the matches in progress.

- **Match value** (`matches.dfy`, module `Matches`). An immutable record with two team names, two scores and a start time. It has a 0-0 constructor and a copy that replaces the scores.
- **Summary view** (`summaries.dfy`, module `Summaries`). The `MatchSummary` record and the converter that drops the start time.
- **Ranking rule** (`ranking.dfy`, module `Ranking`). The default comparator ranks a higher total score first, and among equal totals the most recently started match first. `RanksBefore` is a reference definition of the rule on its two keys. `Rank` sorts a list of matches by the rule.
- **Match repository** (`repository.dfy`, module `Repository`). The store of active matches, modelled as the class `MatchRepository`:
  - two indices, `byHome` (home team → match) and `byAway` (away team → match);
  - a ghost map `Contents` from each active (home, away) pair to its match;
  - an invariant `Valid()` saying that the indices agree with `Contents`, that every match sits under its own pair, and that no team plays in two active matches (team exclusivity).

  `Save`, `ContainsMatchForTeam`, `Get`, `Remove` and `ListAllMatches` are proved against `Contents`.
- **Scoreboard service** (`service.dfy`, module `Service`):
  - `ValidateTeams` and `ValidateScores` check the inputs.
  - `Start`, `Update` and `Finish` give the effect of each operation on the store as a function. Lemmas state what those functions guarantee: invariants kept, teams locked, overrides, not-found after finish, and the summary determined by the store.
  - The class `Scoreboard` owns a `MatchRepository` and a `clock`. Its methods `StartMatch`, `UpdateScore` and `FinishMatch` are proved to change the repository exactly as those functions say. `GetMatchesSummary` is proved to return the projection of a sorted permutation of the stored matches.

In the model, start times are integers handed out by the scoreboard's `clock`. The clock advances on every successful start, so a later start always has a later time. Under the model's service invariant, no two active matches share a start time, so the ranking is a strict order on active matches. The program reads the wall clock instead, which does not give this guarantee (see "## Left out"). The summary is therefore fully determined by the stored matches (`Service.RankingIsUnique`), and any failed call leaves it unchanged.

The repository's only implementation in the source is an empty stub. The store is modelled from the doc comments of the `MatchRepository` interface and from its tests.

There is one discrepancy between the documentation and the code. The doc comment of `startMatch` (`src/main/java/org/scoreboard/Scoreboard.java:19`) promises a refusal only for a match between exactly the same home and away teams. The implementation (`src/main/java/org/scoreboard/internal/ScoreboardImpl.java:48-53`) refuses whenever either team already plays in any active match. The model follows the implementation.

## Model

| member | source | states |
|---|---|---|
| `Matches.NewMatch` | src/main/java/org/scoreboard/internal/model/Match.java:24-26 | The two-argument constructor gives a 0-0 match of exactly that pair, started at the given time; with non-empty names it is a valid match. |
| `Matches.WithModifiedScore` | src/main/java/org/scoreboard/internal/model/Match.java:35-37 | The copy keeps both teams and the start time, and its scores are exactly the given ones (set, not added). |
| `Matches.WithModifiedScoreTwice` | src/main/java/org/scoreboard/internal/model/Match.java:35-37 | Two successive score changes equal a single change to the second pair of scores. |
| `Matches.WithOwnScoreIsIdentity` | src/main/java/org/scoreboard/internal/model/Match.java:35-37 | Setting a match's own scores gives back an equal match. |
| `Matches.WithModifiedScoreKeepsValid` | src/main/java/org/scoreboard/internal/model/Match.java:10-13 | A valid match (non-empty names, non-negative scores) stays valid under non-negative new scores. |
| `Summaries.ToSummary` | src/main/java/org/scoreboard/internal/convert/MatchToMatchSummaryConverter.java:14-16 | The summary carries the match's two teams and two scores. |
| `Summaries.SummaryIgnoresStart` | src/main/java/org/scoreboard/MatchSummary.java:11 | Two matches have equal summaries if and only if they differ at most in their start time. |
| `Summaries.SummaryOfModifiedScore` | src/main/java/org/scoreboard/internal/convert/MatchToMatchSummaryConverter.java:15 | Converting a re-scored match gives its original teams with exactly the new scores. |
| `Summaries.Project` | src/main/java/org/scoreboard/internal/ScoreboardImpl.java:83-84 | Mapping the converter over a list keeps its length and order, element by element. |
| `Ranking.CompareInt` | src/main/java/org/scoreboard/internal/compare/DefaultComparatorSupplier.java:17 | The integer comparison is negative, zero or positive exactly when the first key is smaller, equal or larger. |
| `Ranking.Compare` | src/main/java/org/scoreboard/internal/compare/DefaultComparatorSupplier.java:16-20 | A match sorts first if and only if its total is higher, or the totals are equal and it started later. It compares equal exactly when both total and start time are equal, whatever the team names. |
| `Ranking.CompareMatchesRanksBefore` | src/main/java/org/scoreboard/internal/compare/DefaultComparatorSupplier.java:9 | The comparator agrees with the documented rule (total first, then most recent start), in both directions. |
| `Ranking.CompareAntisymmetric` | src/main/java/org/scoreboard/internal/compare/DefaultComparatorSupplier.java:17-19 | Swapping the two matches negates the comparison. |
| `Ranking.RanksBeforeIsTotalPreorder` | src/main/java/org/scoreboard/internal/compare/DefaultComparatorSupplier.java:17-19 | The ranking is reflexive, total and transitive, so a sorted order always exists. |
| `Ranking.OnlyTotalMatters` | src/main/java/org/scoreboard/internal/compare/DefaultComparatorSupplier.java:17 | How a total splits between the teams does not matter: 3-4 and 4-3 compare the same against any match. |
| `Ranking.Insert` | src/main/java/org/scoreboard/internal/ScoreboardImpl.java:82 | Inserting into a sorted list, placing the new match before the first element the comparator does not rank ahead of it, gives a sorted list with exactly one more occurrence of the new match. |
| `Ranking.Rank` | src/main/java/org/scoreboard/internal/ScoreboardImpl.java:81-82 | Sorting with the comparator gives a sorted permutation of the input. |
| `Ranking.SortedPlacesHigherFirst` | src/main/java/org/scoreboard/Scoreboard.java:47-49 | In a sorted list, a higher total, or an equal total with a later start, is listed earlier. |
| `Ranking.SortedIsUnique` | src/main/java/org/scoreboard/internal/ScoreboardImpl.java:81-82 | When no two distinct matches share a start time, two sorted permutations of the same matches are equal. |
| `Repository.SwappedPairConflicts` | src/main/java/org/scoreboard/internal/repository/MatchRepository.java:16-17 | Saving the swapped pair of an active match is a conflict. |
| `Repository.SaveKeepsTeamExclusive` | src/main/java/org/scoreboard/internal/repository/MatchRepository.java:14-21 | A conflict-free save keeps every team in at most one active match. |
| `Repository.RemoveFreesBothTeams` | src/main/java/org/scoreboard/internal/repository/MatchRepository.java:44-52 | Removing an active pair keeps exclusivity, and afterwards neither of its teams plays in any stored match. |
| `Repository.IndexClashIsConflict` | src/main/java/org/scoreboard/internal/repository/MatchRepository.java:16-17 | The four lookups of a match's teams in the two indices find another pair exactly when the save conflicts with the stored matches. |
| `Repository.SaveKeepsIndexes` | src/main/java/org/scoreboard/internal/repository/MatchRepository.java:14-15 | Writing a conflict-free match under its home and away team keeps both indices in agreement with the new store. |
| `Repository.RemoveKeepsIndexes` | src/main/java/org/scoreboard/internal/repository/MatchRepository.java:44-52 | Deleting a pair under both of its teams keeps both indices in agreement with the smaller store. |
| `Repository.MatchRepository.constructor` | src/test/java/org/scoreboard/internal/repository/InMemoryMatchRepositoryTest.java:232-239 | A new repository is consistent and stores no matches. |
| `Repository.MatchRepository.Save` | src/main/java/org/scoreboard/internal/repository/MatchRepository.java:13-23 | The save succeeds if and only if no stored match of a different pair shares one of its teams. On success the match is stored under its pair, replacing any earlier match of that pair, and nothing else changes. On failure nothing changes. |
| `Repository.MatchRepository.ContainsMatchForTeam` | src/main/java/org/scoreboard/internal/repository/MatchRepository.java:25-32 | True if and only if the team is the home or away team of some stored match. |
| `Repository.MatchRepository.Get` | src/main/java/org/scoreboard/internal/repository/MatchRepository.java:34-42 | Returns the stored match of exactly that ordered pair, and nothing when the pair is not stored. |
| `Repository.MatchRepository.Remove` | src/main/java/org/scoreboard/internal/repository/MatchRepository.java:44-52 | Fails if and only if the pair is not stored. Otherwise it deletes exactly that pair, and all other matches stay. |
| `Repository.MatchRepository.ListAllMatches` | src/main/java/org/scoreboard/internal/repository/MatchRepository.java:54-57 | The list holds every stored match exactly once (as a multiset, equal to the stored matches), in no particular order. Its length is the number of active pairs. |
| `Repository.KeyedStoreCount` | src/main/java/org/scoreboard/internal/repository/MatchRepository.java:54-57 | A store whose every match sits under its own pair holds as many distinct matches as pairs. This is why the listing has one entry per active pair. |
| `Service.ValidateTeams` | src/main/java/org/scoreboard/internal/ScoreboardImpl.java:87-94 | Passes if and only if both names are non-empty and different. A failure is an illegal-argument error, and an empty home name is reported before an empty away name. |
| `Service.ValidateScores` | src/main/java/org/scoreboard/internal/ScoreboardImpl.java:96-99 | Passes if and only if both scores are non-negative. A failure is an illegal-argument error, with the home score checked first. |
| `Service.Start` | src/main/java/org/scoreboard/internal/ScoreboardImpl.java:44-56 | Starting succeeds if and only if the names are valid and neither team plays in any active match. Success adds exactly one new 0-0 match for a pair that was absent; failure leaves the store unchanged. The error is the first that applies: an invalid name gives that name's illegal-argument error, a busy home team gives `TeamAlreadyPlaying(home)`, and otherwise a busy away team gives `TeamAlreadyPlaying(away)`. |
| `Service.Update` | src/main/java/org/scoreboard/internal/ScoreboardImpl.java:58-67 | Updating succeeds if and only if the names and scores are valid and that exact ordered pair is active. Success replaces that match by its re-scored copy; failure leaves the store unchanged. The error is the first that applies: the names' validation error, then the scores' validation error, then `NoSuchMatch` for the pair. |
| `Service.Finish` | src/main/java/org/scoreboard/internal/ScoreboardImpl.java:69-77 | Finishing succeeds if and only if the names are valid and the exact pair is active. It then removes exactly that pair; otherwise the store is unchanged. The error is the names' validation error, or else `NoSuchMatch` for the pair. |
| `Service.StartNeverConflicts` | src/main/java/org/scoreboard/internal/ScoreboardImpl.java:48-55 | After the service's own team checks pass, the repository's conflict error cannot occur for the new match. |
| `Service.UpdateNeverConflicts` | src/main/java/org/scoreboard/internal/ScoreboardImpl.java:63-66 | Re-saving the match just read for a pair, with any scores, can never conflict. |
| `Service.StartKeepsConsistent` | src/main/java/org/scoreboard/internal/ScoreboardImpl.java:44-56 | A successful start keeps the service invariant, with the clock one step later: valid matches only, team exclusivity, past and pairwise distinct start times. |
| `Service.UpdateKeepsConsistent` | src/main/java/org/scoreboard/internal/ScoreboardImpl.java:58-67 | Every update, successful or not, keeps the service invariant. |
| `Service.FinishKeepsConsistent` | src/main/java/org/scoreboard/internal/ScoreboardImpl.java:69-77 | Every finish, successful or not, keeps the service invariant. |
| `Service.StartLocksBothTeams` | src/main/java/org/scoreboard/internal/ScoreboardImpl.java:48-53 | After a successful start, any valid start naming either of its teams, in either position, fails with a team-already-playing error. |
| `Service.UpdateOverrides` | src/main/java/org/scoreboard/Scoreboard.java:23-24 | A second update of the same match succeeds and leaves the store as if only the second update had happened. |
| `Service.FinishedMatchIsGone` | src/main/java/org/scoreboard/internal/ScoreboardImpl.java:73-76 | After a finish, updating or finishing the same pair fails with a no-such-match error. |
| `Service.UpdateTouchesOnlyScores` | src/main/java/org/scoreboard/internal/ScoreboardImpl.java:63-66 | An update keeps the set of active pairs, the updated match's start time and every other match. The updated match's summary shows exactly the new scores. |
| `Service.EmptyStoreRanksNothing` | src/test/java/org/scoreboard/ScoreboardTest.java:153-160 | With no active matches the summary is empty. |
| `Service.RankingIsUnique` | src/main/java/org/scoreboard/internal/ScoreboardImpl.java:80-85 | Under the service invariant any two sorted permutations of the stored matches are equal, and so are their summaries. The summary therefore depends only on the store, and a failed call leaves it unchanged. |
| `Service.FirstStartSummary` | src/test/java/org/scoreboard/ScoreboardTest.java:177-189 | Starting a match on an empty scoreboard gives exactly one summary: that pair at 0-0. |
| `Service.StartedLastRanksFirstOnTies` | src/main/java/org/scoreboard/Scoreboard.java:47-49 | A newly started match is listed before every other active match with the same (zero) total. |
| `Service.StartThreeThenScoreStore` | src/test/java/org/scoreboard/ScoreboardTest.java:241-251 | On a fresh scoreboard, starting three matches of six different teams and then scoring each leaves exactly those three matches, with start times 0, 1, 2 and the new scores. |
| `Service.StartThreeThenScoreValues` | src/test/java/org/scoreboard/ScoreboardTest.java:241-251 | The same store, given as the set of the three matches it holds. |
| `Service.RankingOfThree` | src/main/java/org/scoreboard/internal/compare/DefaultComparatorSupplier.java:8-9 | Three matches with different start times, listed in ranking order, have no other sorted arrangement. |
| `Service.OrderedByTotalScenario` | src/test/java/org/scoreboard/ScoreboardTest.java:241-261 | For any six different team names, three matches started in order on a fresh scoreboard and updated to 1-5, 4-3 and 5-0 are summarised as 4-3, 1-5, 5-0. |
| `Service.TieBrokenByRecencyScenario` | src/test/java/org/scoreboard/ScoreboardTest.java:263-283 | For any six different team names, three matches started in order on a fresh scoreboard and updated to 3-3, 5-1 and 2-4 are summarised most recently started first: 2-4, 5-1, 3-3. |
| `Service.Scoreboard.constructor` | src/main/java/org/scoreboard/internal/ScoreboardImpl.java:40-42 | A new scoreboard has a fresh, empty repository, its clock at 0, and satisfies the service invariant. |
| `Service.Scoreboard.StartMatch` | src/main/java/org/scoreboard/internal/ScoreboardImpl.java:44-56 | Result and new store are exactly those of `Start` at the current clock. The clock advances by one on success only. The repository's save is proved never to fail here. |
| `Service.Scoreboard.UpdateScore` | src/main/java/org/scoreboard/internal/ScoreboardImpl.java:58-67 | Result and new store are exactly those of `Update`. The clock is unchanged. Validation precedes any change, and the re-save is proved never to fail. |
| `Service.Scoreboard.FinishMatch` | src/main/java/org/scoreboard/internal/ScoreboardImpl.java:69-77 | Result and new store are exactly those of `Finish`. The clock is unchanged, and the removal is proved to succeed once the lookup has found the pair. |
| `Service.Scoreboard.GetMatchesSummary` | src/main/java/org/scoreboard/internal/ScoreboardImpl.java:79-85 | The summary is the projection of a sorted permutation of the stored matches, with totals non-increasing along the list. |

## Left out

- Null arguments and their `NullPointerException`s (`Objects.requireNonNull`): strings in the model cannot be null.
- The wall clock (`Instant.now()`): start times are integers from the scoreboard's own counter. The counter advances on every successful start. In the program, two quick starts can receive equal instants, and the clock can step backwards. The program can therefore hold matches with equal or decreasing start times. Its stable sort then lists fully tied matches in the repository's list order, not most recently started first. `Service.RankingIsUnique`, `Service.StartedLastRanksFirstOnTies` and `Service.TieBrokenByRecencyScenario` rely on the strictly increasing counter.
- Exception classes and message texts: failures are values of the `Error` datatype. The argument errors are marked by `IsIllegalArgument`; the other two correspond to the illegal-state exceptions.
- Ranking.Compare: returns only the sign of the comparison (-1, 0 or 1). The magnitude returned by `Instant.compareTo` is not modelled, because sorting uses only the sign.
- Ranking.Total: scores and totals are unbounded integers, so 32-bit `int` wrap-around of `homeScore + awayScore` is not modelled.
- Ranking.Rank: sorts by insertion, not by the library's stable merge sort. The arrangement of full ties (equal total and equal start time) is not modelled. Such ties cannot occur in the model, because the counter gives every start its own time; with the program's wall clock they can.
- Construction wiring is not modelled: the injected repository, comparator and converter (constructor dependency injection), and `Scoreboard.getDefaultInstance`. The scoreboard always uses the modelled repository, comparator and converter.
- `InMemoryMatchRepository` and the non-internal `ScoreboardImpl` are unfinished stubs with no behaviour to model. The repository is modelled from its interface contract instead.
- The console demo (`Main`) and its printing.
- Repository.MatchRepository.Save: like the interface, it does not validate the match it stores. A match with equal or empty team names can be stored directly; the service never does so.
- Concurrency: the model is sequential, as the service is.
