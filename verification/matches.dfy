/**
 * The match value of the live scoreboard: an immutable record of two team
 * names, their scores and the moment the match started. Timestamps are
 * integers handed out by the scoreboard's own counter (see module Service).
 */
module Matches {

  /** A match is identified by its ordered (home team, away team) pair. */
  type Pair = (string, string)

  datatype Match = Match(homeTeam: string, awayTeam: string, homeScore: int, awayScore: int, startedAt: int)

  /** The identifying pair of a match. */
  function Key(m: Match): Pair {
    (m.homeTeam, m.awayTeam)
  }

  /** Documented validity of a match: non-empty team names and non-negative scores. */
  predicate IsValid(m: Match) {
    m.homeTeam != "" && m.awayTeam != "" && m.homeScore >= 0 && m.awayScore >= 0
  }

  /** The two-argument constructor: a 0-0 match between the two teams, started at `now`. */
  function NewMatch(homeTeam: string, awayTeam: string, now: int): (m: Match)
    ensures Key(m) == (homeTeam, awayTeam)
    ensures m.homeScore == 0 && m.awayScore == 0
    ensures m.startedAt == now
    ensures homeTeam != "" && awayTeam != "" ==> IsValid(m)
  {
    Match(homeTeam, awayTeam, 0, 0, now)
  }

  /** A copy of `m` whose scores are set (not added) to the given ones. */
  function WithModifiedScore(m: Match, homeScore: int, awayScore: int): (r: Match)
    ensures Key(r) == Key(m) && r.startedAt == m.startedAt
    ensures r.homeScore == homeScore && r.awayScore == awayScore
  {
    Match(m.homeTeam, m.awayTeam, homeScore, awayScore, m.startedAt)
  }

  /** A second score change overrides the first: only the last pair of scores survives. */
  lemma WithModifiedScoreTwice(m: Match, h1: int, a1: int, h2: int, a2: int)
    ensures WithModifiedScore(WithModifiedScore(m, h1, a1), h2, a2) == WithModifiedScore(m, h2, a2)
  {
  }

  /** Setting a match's own scores gives back an equal match. */
  lemma WithOwnScoreIsIdentity(m: Match)
    ensures WithModifiedScore(m, m.homeScore, m.awayScore) == m
  {
  }

  /** Changing the scores to non-negative ones keeps a valid match valid. */
  lemma WithModifiedScoreKeepsValid(m: Match, homeScore: int, awayScore: int)
    requires IsValid(m) && homeScore >= 0 && awayScore >= 0
    ensures IsValid(WithModifiedScore(m, homeScore, awayScore))
  {
  }
}
