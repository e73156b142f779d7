/**
 * The default ranking of matches: higher total score first, and among equal
 * totals the more recently started match first. `Rank` sorts a list of
 * matches by this rule, as the scoreboard's summary does.
 */
module Ranking {
  import opened Matches

  /** Combined score of a match, the primary ranking key (unbounded: no 32-bit wrap-around). */
  function Total(m: Match): int {
    m.homeScore + m.awayScore
  }

  /** Three-way comparison of two integers, giving -1, 0 or 1. */
  function CompareInt(x: int, y: int): (r: int)
    ensures r < 0 <==> x < y
    ensures r == 0 <==> x == y
    ensures -1 <= r <= 1
  {
    if x < y then -1 else if x == y then 0 else 1
  }

  /**
   * The default comparator: ascending by total, then by start time, reversed.
   * A negative result means `a` is listed before `b`.
   */
  function Compare(a: Match, b: Match): (r: int)
    ensures -1 <= r <= 1
    ensures r < 0 <==> Total(a) > Total(b) || (Total(a) == Total(b) && a.startedAt > b.startedAt)
    ensures r == 0 <==> Total(a) == Total(b) && a.startedAt == b.startedAt
  {
    // reversing a comparator swaps its arguments
    var byTotal := CompareInt(Total(b), Total(a));
    if byTotal != 0 then byTotal else CompareInt(b.startedAt, a.startedAt)
  }

  /**
   * Reference definition of the rule on its two keys: `a` may be listed before
   * `b` when its total is higher, or equal with a start that is not earlier.
   */
  predicate RanksBefore(a: Match, b: Match) {
    Total(a) > Total(b) || (Total(a) == Total(b) && a.startedAt >= b.startedAt)
  }

  /** The comparator agrees with the reference definition. */
  lemma CompareMatchesRanksBefore(a: Match, b: Match)
    ensures Compare(a, b) <= 0 <==> RanksBefore(a, b)
    ensures Compare(a, b) < 0 <==> RanksBefore(a, b) && !RanksBefore(b, a)
  {
  }

  /** Swapping the arguments flips the sign of the comparison. */
  lemma CompareAntisymmetric(a: Match, b: Match)
    ensures Compare(a, b) == -Compare(b, a)
  {
  }

  /** The ranking is a total preorder: reflexive, total and transitive. */
  lemma RanksBeforeIsTotalPreorder(a: Match, b: Match, c: Match)
    ensures RanksBefore(a, a)
    ensures RanksBefore(a, b) || RanksBefore(b, a)
    ensures RanksBefore(a, b) && RanksBefore(b, c) ==> RanksBefore(a, c)
  {
  }

  /** Only the total counts, not how it splits between the teams: swapping the scores changes nothing. */
  lemma OnlyTotalMatters(m: Match, homeScore: int, awayScore: int, other: Match)
    ensures Compare(WithModifiedScore(m, homeScore, awayScore), other)
         == Compare(WithModifiedScore(m, awayScore, homeScore), other)
  {
  }

  /** The list is ordered by the ranking. */
  predicate Sorted(s: seq<Match>) {
    forall i, j | 0 <= i < j < |s| :: RanksBefore(s[i], s[j])
  }

  /** Inserts `m` into a sorted list in front of the first match the comparator does not place before it. */
  function Insert(m: Match, s: seq<Match>): (r: seq<Match>)
    requires Sorted(s)
    ensures Sorted(r)
    ensures multiset(r) == multiset(s) + multiset{m}
  {
    if s == [] then [m]
    else if Compare(m, s[0]) <= 0 then
      assert RanksBefore(m, s[0]) by { CompareMatchesRanksBefore(m, s[0]); }
      [m] + s
    else
      assert RanksBefore(s[0], m) by { CompareMatchesRanksBefore(m, s[0]); }
      var rest := Insert(m, s[1..]);
      assert s == [s[0]] + s[1..];
      assert forall x | x in rest :: RanksBefore(s[0], x) by {
        forall x | x in rest ensures RanksBefore(s[0], x) {
          assert x in multiset(rest);
          assert x == m || x in multiset(s[1..]);
        }
      }
      [s[0]] + rest
  }

  /** Sorts a list of matches by the ranking (insertion sort); the result is a sorted permutation. */
  function Rank(s: seq<Match>): (r: seq<Match>)
    ensures Sorted(r)
    ensures multiset(r) == multiset(s)
  {
    if s == [] then []
    else
      assert s == [s[0]] + s[1..];
      Insert(s[0], Rank(s[1..]))
  }

  /** In a sorted list, a match with a higher total, or an equal total and a later start, comes first. */
  lemma SortedPlacesHigherFirst(s: seq<Match>, i: int, j: int)
    requires Sorted(s) && 0 <= i < |s| && 0 <= j < |s|
    requires Total(s[i]) > Total(s[j]) || (Total(s[i]) == Total(s[j]) && s[i].startedAt > s[j].startedAt)
    ensures i < j
  {
  }

  /** No two distinct matches in the list share a start time. */
  predicate DistinctStarts(s: seq<Match>) {
    forall x, y | x in s && y in s && x.startedAt == y.startedAt :: x == y
  }

  /** Dropping the first match keeps a list sorted and its start times distinct. */
  lemma SortedTail(s: seq<Match>)
    requires s != [] && Sorted(s) && DistinctStarts(s)
    ensures Sorted(s[1..]) && DistinctStarts(s[1..])
  {
    forall i, j | 0 <= i < j < |s[1..]| ensures RanksBefore(s[1..][i], s[1..][j]) {
      assert RanksBefore(s[i + 1], s[j + 1]);
    }
  }

  /** The first match of a sorted list ranks before every match of the list. */
  lemma HeadRanksFirst(s: seq<Match>, y: Match)
    requires Sorted(s) && y in multiset(s)
    ensures s != [] && RanksBefore(s[0], y)
  {
    var k :| 0 <= k < |s| && s[k] == y;
    if k != 0 {
      assert RanksBefore(s[0], s[k]);
    }
  }

  /**
   * When no two distinct matches share a start time, the sorted order is unique:
   * two sorted permutations of the same matches are equal.
   */
  lemma {:induction false} SortedIsUnique(s1: seq<Match>, s2: seq<Match>)
    requires Sorted(s1) && Sorted(s2)
    requires multiset(s1) == multiset(s2)
    requires DistinctStarts(s1)
    ensures s1 == s2
  {
    if s1 == [] {
      assert |multiset(s2)| == 0;
    } else {
      assert s1[0] in multiset(s1);
      HeadRanksFirst(s2, s1[0]);
      HeadRanksFirst(s1, s2[0]);
      var x := s1[0];
      assert s2[0] in s1 by {
        assert s2[0] in multiset(s1);
      }
      assert s2[0] == x;
      assert s1 == [x] + s1[1..];
      assert s2 == [x] + s2[1..];
      assert multiset(s1) == multiset{x} + multiset(s1[1..]);
      assert multiset(s2) == multiset{x} + multiset(s2[1..]);
      SortedTail(s1);
      assert s2 != [] && Sorted(s2);
      assert Sorted(s2[1..]) by {
        forall i, j | 0 <= i < j < |s2[1..]| ensures RanksBefore(s2[1..][i], s2[1..][j]) {
          assert RanksBefore(s2[i + 1], s2[j + 1]);
        }
      }
      var t1, t2 := s1[1..], s2[1..];
      assert multiset(t1) == multiset(t2) by {
        assert multiset(t1) == multiset(s1) - multiset{x};
        assert multiset(t2) == multiset(s2) - multiset{x};
      }
      SortedIsUnique(t1, t2);
    }
  }
}
