/**
 * The scoreboard service: validates its inputs, turns start / update / finish
 * into operations on the match store, and builds the ranked summary.
 *
 * The effect of each operation on the store is first given as a function
 * (`Start`, `Update`, `Finish`); the methods of class `Scoreboard` are proved
 * to have exactly that effect on their repository, and the lemmas state what
 * the functions guarantee.
 */
module Service {
  import opened Matches
  import opened Summaries
  import opened Ranking
  import opened Repository

  /** Why an operation was refused. */
  datatype Error =
    | HomeTeamEmpty
    | AwayTeamEmpty
    | SameTeams
    | HomeScoreNegative
    | AwayScoreNegative
    | TeamAlreadyPlaying(team: string)
    | NoSuchMatch(homeTeam: string, awayTeam: string)
  {
    /** Malformed input (an illegal argument), as opposed to a request the current state refuses. */
    predicate IsIllegalArgument() {
      HomeTeamEmpty? || AwayTeamEmpty? || SameTeams? || HomeScoreNegative? || AwayScoreNegative?
    }
  }

  datatype Outcome = Pass | Fail(error: Error)

  /** Team names must be non-empty and different; the home name is checked first. */
  function ValidateTeams(homeTeam: string, awayTeam: string): (r: Outcome)
    ensures r.Pass? <==> homeTeam != "" && awayTeam != "" && homeTeam != awayTeam
    ensures r.Fail? ==> r.error.IsIllegalArgument()
    ensures homeTeam == "" ==> r == Fail(HomeTeamEmpty)
    ensures homeTeam != "" && awayTeam == "" ==> r == Fail(AwayTeamEmpty)
  {
    if homeTeam == "" then Fail(HomeTeamEmpty)
    else if awayTeam == "" then Fail(AwayTeamEmpty)
    else if homeTeam == awayTeam then Fail(SameTeams)
    else Pass
  }

  /** Scores must be non-negative; the home score is checked first. */
  function ValidateScores(homeScore: int, awayScore: int): (r: Outcome)
    ensures r.Pass? <==> homeScore >= 0 && awayScore >= 0
    ensures r.Fail? ==> r.error.IsIllegalArgument()
    ensures homeScore < 0 ==> r == Fail(HomeScoreNegative)
  {
    if homeScore < 0 then Fail(HomeScoreNegative)
    else if awayScore < 0 then Fail(AwayScoreNegative)
    else Pass
  }

  /** The result of an operation together with the store it leaves behind. */
  datatype Step = Step(outcome: Outcome, store: Store)

  /** startMatch: a 0-0 match started at `now`, unless a name is invalid or a team already plays. */
  function Start(c: Store, homeTeam: string, awayTeam: string, now: int): (r: Step)
    ensures r.outcome.Pass? <==>
              && ValidateTeams(homeTeam, awayTeam).Pass?
              && !Involves(c, homeTeam) && !Involves(c, awayTeam)
    ensures r.outcome.Pass? ==>
              && (homeTeam, awayTeam) !in c
              && r.store == c[(homeTeam, awayTeam) := NewMatch(homeTeam, awayTeam, now)]
    ensures r.outcome.Fail? ==> r.store == c
    ensures ValidateTeams(homeTeam, awayTeam).Fail? ==> r.outcome == ValidateTeams(homeTeam, awayTeam)
    ensures ValidateTeams(homeTeam, awayTeam).Pass? && Involves(c, homeTeam) ==>
              r.outcome == Fail(TeamAlreadyPlaying(homeTeam))
    ensures ValidateTeams(homeTeam, awayTeam).Pass? && !Involves(c, homeTeam) && Involves(c, awayTeam) ==>
              r.outcome == Fail(TeamAlreadyPlaying(awayTeam))
  {
    var valid := ValidateTeams(homeTeam, awayTeam);
    if valid.Fail? then Step(valid, c)
    else if Involves(c, homeTeam) then Step(Fail(TeamAlreadyPlaying(homeTeam)), c)
    else if Involves(c, awayTeam) then Step(Fail(TeamAlreadyPlaying(awayTeam)), c)
    else
      assert (homeTeam, awayTeam) !in c by {
        if (homeTeam, awayTeam) in c {
          assert Involves(c, homeTeam);
        }
      }
      Step(Pass, c[(homeTeam, awayTeam) := NewMatch(homeTeam, awayTeam, now)])
  }

  /** updateScore: sets the scores of the match of exactly that ordered pair. */
  function Update(c: Store, homeTeam: string, awayTeam: string, homeScore: int, awayScore: int): (r: Step)
    ensures r.outcome.Pass? <==>
              && ValidateTeams(homeTeam, awayTeam).Pass?
              && ValidateScores(homeScore, awayScore).Pass?
              && (homeTeam, awayTeam) in c
    ensures r.outcome.Pass? ==>
              r.store == c[(homeTeam, awayTeam) := WithModifiedScore(c[(homeTeam, awayTeam)], homeScore, awayScore)]
    ensures r.outcome.Fail? ==> r.store == c
    ensures ValidateTeams(homeTeam, awayTeam).Fail? ==> r.outcome == ValidateTeams(homeTeam, awayTeam)
    ensures ValidateTeams(homeTeam, awayTeam).Pass? && ValidateScores(homeScore, awayScore).Fail? ==>
              r.outcome == ValidateScores(homeScore, awayScore)
    ensures ValidateTeams(homeTeam, awayTeam).Pass? && ValidateScores(homeScore, awayScore).Pass?
            && (homeTeam, awayTeam) !in c ==>
              r.outcome == Fail(NoSuchMatch(homeTeam, awayTeam))
  {
    var valid := ValidateTeams(homeTeam, awayTeam);
    if valid.Fail? then Step(valid, c)
    else
      var scores := ValidateScores(homeScore, awayScore);
      if scores.Fail? then Step(scores, c)
      else if (homeTeam, awayTeam) !in c then Step(Fail(NoSuchMatch(homeTeam, awayTeam)), c)
      else Step(Pass, c[(homeTeam, awayTeam) := WithModifiedScore(c[(homeTeam, awayTeam)], homeScore, awayScore)])
  }

  /** finishMatch: removes the match of exactly that ordered pair. */
  function Finish(c: Store, homeTeam: string, awayTeam: string): (r: Step)
    ensures r.outcome.Pass? <==> ValidateTeams(homeTeam, awayTeam).Pass? && (homeTeam, awayTeam) in c
    ensures r.store == if r.outcome.Pass? then c - {(homeTeam, awayTeam)} else c
    ensures ValidateTeams(homeTeam, awayTeam).Fail? ==> r.outcome == ValidateTeams(homeTeam, awayTeam)
    ensures ValidateTeams(homeTeam, awayTeam).Pass? && (homeTeam, awayTeam) !in c ==>
              r.outcome == Fail(NoSuchMatch(homeTeam, awayTeam))
  {
    var valid := ValidateTeams(homeTeam, awayTeam);
    if valid.Fail? then Step(valid, c)
    else if (homeTeam, awayTeam) !in c then Step(Fail(NoSuchMatch(homeTeam, awayTeam)), c)
    else Step(Pass, c - {(homeTeam, awayTeam)})
  }

  /**
   * What the service keeps true of its store, given the next timestamp `clock`:
   * the store's own invariants, only valid matches between two different teams,
   * every start time in the past, and no two matches started at the same time.
   */
  predicate Consistent(c: Store, clock: int) {
    && KeyedByTeams(c)
    && TeamExclusive(c)
    && (forall p | p in c :: IsValid(c[p]) && p.0 != p.1 && c[p].startedAt < clock)
    && (forall p, q | p in c && q in c && p != q :: c[p].startedAt != c[q].startedAt)
  }

  /** A start that passes validation and the team checks never meets a repository conflict. */
  lemma StartNeverConflicts(c: Store, homeTeam: string, awayTeam: string, now: int)
    requires Start(c, homeTeam, awayTeam, now).outcome.Pass?
    ensures !Conflicts(c, NewMatch(homeTeam, awayTeam, now))
  {
    forall p | p in c ensures !SharesTeam(p, (homeTeam, awayTeam)) {
      assert p.0 != homeTeam && p.1 != homeTeam && p.0 != awayTeam && p.1 != awayTeam;
    }
  }

  /** Re-saving the match just read for a pair, with new scores, never meets a repository conflict. */
  lemma UpdateNeverConflicts(c: Store, homeTeam: string, awayTeam: string, homeScore: int, awayScore: int)
    requires KeyedByTeams(c) && TeamExclusive(c) && (homeTeam, awayTeam) in c
    ensures !Conflicts(c, WithModifiedScore(c[(homeTeam, awayTeam)], homeScore, awayScore))
  {
  }

  /** A successful start keeps the service invariant with the clock advanced by one. */
  lemma StartKeepsConsistent(c: Store, homeTeam: string, awayTeam: string, clock: int)
    requires Consistent(c, clock)
    requires Start(c, homeTeam, awayTeam, clock).outcome.Pass?
    ensures Consistent(Start(c, homeTeam, awayTeam, clock).store, clock + 1)
  {
    var m := NewMatch(homeTeam, awayTeam, clock);
    StartNeverConflicts(c, homeTeam, awayTeam, clock);
    SaveKeepsTeamExclusive(c, m);
  }

  /** An update keeps the service invariant. */
  lemma UpdateKeepsConsistent(c: Store, homeTeam: string, awayTeam: string, homeScore: int, awayScore: int, clock: int)
    requires Consistent(c, clock)
    ensures Consistent(Update(c, homeTeam, awayTeam, homeScore, awayScore).store, clock)
  {
    if Update(c, homeTeam, awayTeam, homeScore, awayScore).outcome.Pass? {
      var p := (homeTeam, awayTeam);
      UpdateNeverConflicts(c, homeTeam, awayTeam, homeScore, awayScore);
      SaveKeepsTeamExclusive(c, WithModifiedScore(c[p], homeScore, awayScore));
    }
  }

  /** A finish keeps the service invariant. */
  lemma FinishKeepsConsistent(c: Store, homeTeam: string, awayTeam: string, clock: int)
    requires Consistent(c, clock)
    ensures Consistent(Finish(c, homeTeam, awayTeam).store, clock)
  {
    if Finish(c, homeTeam, awayTeam).outcome.Pass? {
      RemoveFreesBothTeams(c, (homeTeam, awayTeam));
    }
  }

  /** After a successful start, every start naming either of its teams, in either position, is refused. */
  lemma StartLocksBothTeams(c: Store, homeTeam: string, awayTeam: string, now: int,
                            other1: string, other2: string, later: int)
    requires Start(c, homeTeam, awayTeam, now).outcome.Pass?
    requires ValidateTeams(other1, other2).Pass?
    requires other1 in {homeTeam, awayTeam} || other2 in {homeTeam, awayTeam}
    ensures Start(Start(c, homeTeam, awayTeam, now).store, other1, other2, later).outcome.Fail?
    ensures Start(Start(c, homeTeam, awayTeam, now).store, other1, other2, later).outcome.error.TeamAlreadyPlaying?
  {
    var c' := Start(c, homeTeam, awayTeam, now).store;
    assert (homeTeam, awayTeam) in c';
    assert Involves(c', homeTeam) && Involves(c', awayTeam);
  }

  /** A second score update overrides the first: the store is as if only the second had happened. */
  lemma UpdateOverrides(c: Store, homeTeam: string, awayTeam: string, h1: int, a1: int, h2: int, a2: int)
    requires Update(c, homeTeam, awayTeam, h1, a1).outcome.Pass?
    requires h2 >= 0 && a2 >= 0
    ensures Update(Update(c, homeTeam, awayTeam, h1, a1).store, homeTeam, awayTeam, h2, a2).outcome.Pass?
    ensures Update(Update(c, homeTeam, awayTeam, h1, a1).store, homeTeam, awayTeam, h2, a2).store
         == Update(c, homeTeam, awayTeam, h2, a2).store
  {
    var p := (homeTeam, awayTeam);
    WithModifiedScoreTwice(c[p], h1, a1, h2, a2);
  }

  /** Once a match is finished, updating or finishing it again reports that there is no such match. */
  lemma FinishedMatchIsGone(c: Store, homeTeam: string, awayTeam: string, homeScore: int, awayScore: int)
    requires Finish(c, homeTeam, awayTeam).outcome.Pass?
    requires homeScore >= 0 && awayScore >= 0
    ensures Update(Finish(c, homeTeam, awayTeam).store, homeTeam, awayTeam, homeScore, awayScore).outcome
         == Fail(NoSuchMatch(homeTeam, awayTeam))
    ensures Finish(Finish(c, homeTeam, awayTeam).store, homeTeam, awayTeam).outcome
         == Fail(NoSuchMatch(homeTeam, awayTeam))
  {
  }

  /** An update leaves the pair and the start time of its match, and every other match, as they were. */
  lemma UpdateTouchesOnlyScores(c: Store, homeTeam: string, awayTeam: string, homeScore: int, awayScore: int)
    requires KeyedByTeams(c)
    requires Update(c, homeTeam, awayTeam, homeScore, awayScore).outcome.Pass?
    ensures var c' := Update(c, homeTeam, awayTeam, homeScore, awayScore).store;
            && c'.Keys == c.Keys
            && c'[(homeTeam, awayTeam)].startedAt == c[(homeTeam, awayTeam)].startedAt
            && ToSummary(c'[(homeTeam, awayTeam)]) == MatchSummary(homeTeam, awayTeam, homeScore, awayScore)
            && (forall p | p in c && p != (homeTeam, awayTeam) :: c'[p] == c[p])
  {
  }

  /** `ranked` lists every active match exactly once, in ranking order. */
  predicate IsRanking(ranked: seq<Match>, c: Store) {
    Sorted(ranked) && multiset(ranked) == multiset(c.Values)
  }

  /** The ranking of an empty store is empty. */
  lemma EmptyStoreRanksNothing(ranked: seq<Match>)
    requires IsRanking(ranked, map[])
    ensures ranked == []
  {
    var empty: Store := map[];
    assert empty.Values == {};
    assert |multiset(ranked)| == 0;
  }

  /** Under the service invariant the ranking, and hence the summary, is determined by the store alone. */
  lemma RankingIsUnique(c: Store, clock: int, r1: seq<Match>, r2: seq<Match>)
    requires Consistent(c, clock)
    requires IsRanking(r1, c) && IsRanking(r2, c)
    ensures r1 == r2 && Project(r1) == Project(r2)
  {
    forall x, y | x in r1 && y in r1 && x.startedAt == y.startedAt ensures x == y {
      assert x in multiset(c.Values) && y in multiset(c.Values);
      var p :| p in c && c[p] == x;
      var q :| q in c && c[q] == y;
    }
    SortedIsUnique(r1, r2);
  }

  /** Starting a match on an empty scoreboard gives a summary of exactly that match at 0-0. */
  lemma FirstStartSummary(homeTeam: string, awayTeam: string, now: int, ranked: seq<Match>)
    requires ValidateTeams(homeTeam, awayTeam).Pass?
    requires IsRanking(ranked, Start(map[], homeTeam, awayTeam, now).store)
    ensures Project(ranked) == [MatchSummary(homeTeam, awayTeam, 0, 0)]
  {
    var m := NewMatch(homeTeam, awayTeam, now);
    assert !Involves(map[], homeTeam) && !Involves(map[], awayTeam);
    assert Start(map[], homeTeam, awayTeam, now).store == map[(homeTeam, awayTeam) := m];
    assert map[(homeTeam, awayTeam) := m].Values == {m};
    assert multiset(ranked) == multiset{m};
    assert |ranked| == 1 && ranked[0] in multiset(ranked);
  }

  /** A new match is started after every active one, so it ranks first among matches of equal total. */
  lemma StartedLastRanksFirstOnTies(c: Store, homeTeam: string, awayTeam: string, clock: int,
                                    ranked: seq<Match>, i: int, j: int)
    requires Consistent(c, clock)
    requires Start(c, homeTeam, awayTeam, clock).outcome.Pass?
    requires IsRanking(ranked, Start(c, homeTeam, awayTeam, clock).store)
    requires 0 <= i < |ranked| && 0 <= j < |ranked|
    requires ranked[i] == NewMatch(homeTeam, awayTeam, clock) && ranked[j] != ranked[i]
    requires Total(ranked[j]) == 0
    ensures i < j
  {
    var c' := Start(c, homeTeam, awayTeam, clock).store;
    assert ranked[j] in multiset(c'.Values);
    var p :| p in c' && c'[p] == ranked[j];
    assert p in c;
    SortedPlacesHigherFirst(ranked, i, j);
  }

  /** The store holding exactly three matches, under their own pairs. */
  function StoreOf3(m1: Match, m2: Match, m3: Match): Store {
    map[Key(m1) := m1, Key(m2) := m2, Key(m3) := m3]
  }

  /** A store of three matches of different pairs holds exactly those three. */
  lemma StoreOf3Values(m1: Match, m2: Match, m3: Match)
    requires Key(m1) != Key(m2) && Key(m1) != Key(m3) && Key(m2) != Key(m3)
    ensures StoreOf3(m1, m2, m3).Values == {m1, m2, m3}
  {
    var c := StoreOf3(m1, m2, m3);
    assert c.Keys == {Key(m1), Key(m2), Key(m3)};
    assert c[Key(m1)] == m1 && c[Key(m2)] == m2;
  }

  /**
   * Three matches with different start times, listed in ranking order: that
   * list is the only sorted arrangement of them.
   */
  lemma RankingOfThree(m1: Match, m2: Match, m3: Match, ranked: seq<Match>)
    requires m1.startedAt != m2.startedAt && m1.startedAt != m3.startedAt && m2.startedAt != m3.startedAt
    requires RanksBefore(m1, m2) && RanksBefore(m2, m3)
    requires Sorted(ranked) && multiset(ranked) == multiset({m1, m2, m3})
    ensures ranked == [m1, m2, m3]
  {
    var s := [m1, m2, m3];
    RanksBeforeIsTotalPreorder(m1, m2, m3);
    assert multiset(s) == multiset({m1, m2, m3});
    SortedIsUnique(s, ranked);
  }

  /**
   * The store after starting three matches on a fresh scoreboard (timestamps
   * 0, 1 and 2) and then setting the score of each, in that order.
   */
  function StartThreeThenScore(h1: string, a1: string, h2: string, a2: string, h3: string, a3: string,
                               x1: int, y1: int, x2: int, y2: int, x3: int, y3: int): Store
  {
    var c1 := Start(map[], h1, a1, 0).store;
    var c2 := Start(c1, h2, a2, 1).store;
    var c3 := Start(c2, h3, a3, 2).store;
    var c4 := Update(c3, h1, a1, x1, y1).store;
    var c5 := Update(c4, h2, a2, x2, y2).store;
    Update(c5, h3, a3, x3, y3).store
  }

  /**
   * With six different non-empty names and non-negative scores, every call
   * succeeds and the store holds exactly the three re-scored matches.
   */
  lemma StartThreeThenScoreStore(h1: string, a1: string, h2: string, a2: string, h3: string, a3: string,
                                 x1: int, y1: int, x2: int, y2: int, x3: int, y3: int)
    requires SixTeams(h1, a1, h2, a2, h3, a3)
    requires x1 >= 0 && y1 >= 0 && x2 >= 0 && y2 >= 0 && x3 >= 0 && y3 >= 0
    ensures StartThreeThenScore(h1, a1, h2, a2, h3, a3, x1, y1, x2, y2, x3, y3)
         == StoreOf3(Match(h1, a1, x1, y1, 0), Match(h2, a2, x2, y2, 1), Match(h3, a3, x3, y3, 2))
  {
    var empty: Store := map[];
    var c1 := Start(empty, h1, a1, 0).store;
    assert c1 == map[(h1, a1) := NewMatch(h1, a1, 0)];
    assert !Involves(c1, h2) && !Involves(c1, a2) by {
      forall p | p in c1 ensures p == (h1, a1) { }
    }
    var c2 := Start(c1, h2, a2, 1).store;
    assert c2 == c1[(h2, a2) := NewMatch(h2, a2, 1)];
    assert !Involves(c2, h3) && !Involves(c2, a3) by {
      forall p | p in c2 ensures p == (h1, a1) || p == (h2, a2) { }
    }
    var c3 := Start(c2, h3, a3, 2).store;
    assert c3 == c2[(h3, a3) := NewMatch(h3, a3, 2)];
    var c4 := Update(c3, h1, a1, x1, y1).store;
    var c5 := Update(c4, h2, a2, x2, y2).store;
    assert c5 == c4[(h2, a2) := Match(h2, a2, x2, y2, 1)];
  }

  /** The same store, as the set of the three matches it holds. */
  lemma StartThreeThenScoreValues(h1: string, a1: string, h2: string, a2: string, h3: string, a3: string,
                                  x1: int, y1: int, x2: int, y2: int, x3: int, y3: int)
    requires SixTeams(h1, a1, h2, a2, h3, a3)
    requires x1 >= 0 && y1 >= 0 && x2 >= 0 && y2 >= 0 && x3 >= 0 && y3 >= 0
    ensures StartThreeThenScore(h1, a1, h2, a2, h3, a3, x1, y1, x2, y2, x3, y3).Values
         == {Match(h1, a1, x1, y1, 0), Match(h2, a2, x2, y2, 1), Match(h3, a3, x3, y3, 2)}
  {
    StartThreeThenScoreStore(h1, a1, h2, a2, h3, a3, x1, y1, x2, y2, x3, y3);
    StoreOf3Values(Match(h1, a1, x1, y1, 0), Match(h2, a2, x2, y2, 1), Match(h3, a3, x3, y3, 2));
  }

  /** Six different non-empty team names, paired as the home and away teams of three matches. */
  predicate SixTeams(h1: string, a1: string, h2: string, a2: string, h3: string, a3: string) {
    && h1 != "" && a1 != "" && h2 != "" && a2 != "" && h3 != "" && a3 != ""
    && h1 != a1 && h2 != a2 && h3 != a3
    && !SharesTeam((h1, a1), (h2, a2)) && !SharesTeam((h1, a1), (h3, a3)) && !SharesTeam((h2, a2), (h3, a3))
  }

  /**
   * Three matches started one after the other and then updated to 1-5, 4-3
   * and 5-0 are summarised as 4-3, 1-5, 5-0: by total.
   */
  lemma OrderedByTotalScenario(h1: string, a1: string, h2: string, a2: string, h3: string, a3: string,
                               ranked: seq<Match>)
    requires SixTeams(h1, a1, h2, a2, h3, a3)
    requires IsRanking(ranked, StartThreeThenScore(h1, a1, h2, a2, h3, a3, 1, 5, 4, 3, 5, 0))
    ensures Project(ranked) == [MatchSummary(h2, a2, 4, 3), MatchSummary(h1, a1, 1, 5), MatchSummary(h3, a3, 5, 0)]
  {
    var m1, m2, m3 := Match(h1, a1, 1, 5, 0), Match(h2, a2, 4, 3, 1), Match(h3, a3, 5, 0, 2);
    StartThreeThenScoreValues(h1, a1, h2, a2, h3, a3, 1, 5, 4, 3, 5, 0);
    assert {m1, m2, m3} == {m2, m1, m3};
    RankingOfThree(m2, m1, m3, ranked);
  }

  /**
   * Three matches started one after the other and updated to 3-3, 5-1 and 2-4,
   * all totalling 6, are summarised most recently started first.
   */
  lemma TieBrokenByRecencyScenario(h1: string, a1: string, h2: string, a2: string, h3: string, a3: string,
                                   ranked: seq<Match>)
    requires SixTeams(h1, a1, h2, a2, h3, a3)
    requires IsRanking(ranked, StartThreeThenScore(h1, a1, h2, a2, h3, a3, 3, 3, 5, 1, 2, 4))
    ensures Project(ranked) == [MatchSummary(h3, a3, 2, 4), MatchSummary(h2, a2, 5, 1), MatchSummary(h1, a1, 3, 3)]
  {
    var m1, m2, m3 := Match(h1, a1, 3, 3, 0), Match(h2, a2, 5, 1, 1), Match(h3, a3, 2, 4, 2);
    StartThreeThenScoreValues(h1, a1, h2, a2, h3, a3, 3, 3, 5, 1, 2, 4);
    assert {m1, m2, m3} == {m3, m2, m1};
    RankingOfThree(m3, m2, m1, ranked);
  }

  /** The live scoreboard: a match repository and the counter that timestamps new matches. */
  class Scoreboard {
    var repository: MatchRepository
    /** The start time the next started match receives; it only grows. */
    var clock: int

    ghost predicate Valid()
      reads this, repository
    {
      repository.Valid() && Consistent(repository.Contents, clock)
    }

    /** A new scoreboard has no matches. */
    constructor ()
      ensures Valid() && fresh(repository)
      ensures repository.Contents == map[]
      ensures clock == 0
    {
      repository := new MatchRepository();
      clock := 0;
    }

    method StartMatch(homeTeam: string, awayTeam: string) returns (r: Outcome)
      requires Valid()
      modifies this, repository
      ensures Valid() && repository == old(repository)
      ensures r == Start(old(repository.Contents), homeTeam, awayTeam, old(clock)).outcome
      ensures repository.Contents == Start(old(repository.Contents), homeTeam, awayTeam, old(clock)).store
      ensures clock == if r.Pass? then old(clock) + 1 else old(clock)
    {
      r := ValidateTeams(homeTeam, awayTeam);
      if r.Fail? {
        return;
      }
      var busy := repository.ContainsMatchForTeam(homeTeam);
      if busy {
        return Fail(TeamAlreadyPlaying(homeTeam));
      }
      busy := repository.ContainsMatchForTeam(awayTeam);
      if busy {
        return Fail(TeamAlreadyPlaying(awayTeam));
      }
      var m := NewMatch(homeTeam, awayTeam, clock);
      StartNeverConflicts(repository.Contents, homeTeam, awayTeam, clock);
      StartKeepsConsistent(repository.Contents, homeTeam, awayTeam, clock);
      var saved := repository.Save(m);
      assert saved;
      clock := clock + 1;
    }

    method UpdateScore(homeTeam: string, awayTeam: string, homeScore: int, awayScore: int) returns (r: Outcome)
      requires Valid()
      modifies this, repository
      ensures Valid() && repository == old(repository) && clock == old(clock)
      ensures r == Update(old(repository.Contents), homeTeam, awayTeam, homeScore, awayScore).outcome
      ensures repository.Contents == Update(old(repository.Contents), homeTeam, awayTeam, homeScore, awayScore).store
    {
      r := ValidateTeams(homeTeam, awayTeam);
      if r.Fail? {
        return;
      }
      r := ValidateScores(homeScore, awayScore);
      if r.Fail? {
        return;
      }
      var current := repository.Get(homeTeam, awayTeam);
      if current.None? {
        return Fail(NoSuchMatch(homeTeam, awayTeam));
      }
      UpdateNeverConflicts(repository.Contents, homeTeam, awayTeam, homeScore, awayScore);
      UpdateKeepsConsistent(repository.Contents, homeTeam, awayTeam, homeScore, awayScore, clock);
      var saved := repository.Save(WithModifiedScore(current.value, homeScore, awayScore));
      assert saved;
    }

    method FinishMatch(homeTeam: string, awayTeam: string) returns (r: Outcome)
      requires Valid()
      modifies this, repository
      ensures Valid() && repository == old(repository) && clock == old(clock)
      ensures r == Finish(old(repository.Contents), homeTeam, awayTeam).outcome
      ensures repository.Contents == Finish(old(repository.Contents), homeTeam, awayTeam).store
    {
      r := ValidateTeams(homeTeam, awayTeam);
      if r.Fail? {
        return;
      }
      var current := repository.Get(homeTeam, awayTeam);
      if current.None? {
        return Fail(NoSuchMatch(homeTeam, awayTeam));
      }
      FinishKeepsConsistent(repository.Contents, homeTeam, awayTeam, clock);
      var removed := repository.Remove(homeTeam, awayTeam);
      assert removed;
    }

    /** The summaries of all active matches, ordered by the ranking rule. */
    method GetMatchesSummary() returns (summary: seq<MatchSummary>)
      requires Valid()
      ensures exists ranked :: IsRanking(ranked, repository.Contents) && summary == Project(ranked)
      ensures forall i, j | 0 <= i < j < |summary| ::
                summary[i].homeScore + summary[i].awayScore >= summary[j].homeScore + summary[j].awayScore
    {
      var all := repository.ListAllMatches();
      var ranked := Rank(all);
      summary := Project(ranked);
      assert IsRanking(ranked, repository.Contents);
      forall i, j | 0 <= i < j < |summary|
        ensures summary[i].homeScore + summary[i].awayScore >= summary[j].homeScore + summary[j].awayScore
      {
        assert RanksBefore(ranked[i], ranked[j]);
      }
    }
  }
}
