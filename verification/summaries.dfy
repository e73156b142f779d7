/**
 * The external summary view of a match and the converter that produces it:
 * team names and scores, without the start time.
 */
module Summaries {
  import opened Matches

  datatype MatchSummary = MatchSummary(homeTeam: string, awayTeam: string, homeScore: int, awayScore: int)

  /** Projects a match onto its summary, dropping `startedAt`. */
  function ToSummary(m: Match): (s: MatchSummary)
    ensures (s.homeTeam, s.awayTeam) == Key(m)
    ensures s.homeScore == m.homeScore && s.awayScore == m.awayScore
  {
    MatchSummary(m.homeTeam, m.awayTeam, m.homeScore, m.awayScore)
  }

  /** Two matches have the same summary exactly when they differ at most in their start time. */
  lemma SummaryIgnoresStart(m1: Match, m2: Match)
    ensures ToSummary(m1) == ToSummary(m2) <==> m1 == m2.(startedAt := m1.startedAt)
  {
  }

  /** The summary of a re-scored match carries the original teams and exactly the new scores. */
  lemma SummaryOfModifiedScore(m: Match, homeScore: int, awayScore: int)
    ensures ToSummary(WithModifiedScore(m, homeScore, awayScore))
         == MatchSummary(m.homeTeam, m.awayTeam, homeScore, awayScore)
  {
  }

  /** Maps the converter over a list of matches, keeping the order. */
  function Project(ms: seq<Match>): (ss: seq<MatchSummary>)
    ensures |ss| == |ms|
    ensures forall i | 0 <= i < |ms| :: ss[i] == ToSummary(ms[i])
  {
    if ms == [] then [] else [ToSummary(ms[0])] + Project(ms[1..])
  }
}
