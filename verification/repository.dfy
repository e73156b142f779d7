/**
 * The store of active matches. Its abstract state is a map from each active
 * (home, away) pair to its match; it is kept as two indices, one by home team
 * and one by away team, that must always agree with each other. No team may
 * appear in two active matches.
 */
module Repository {
  import opened Matches

  datatype Option<T> = None | Some(value: T)

  /** The abstract content of the store: active matches by their pair. */
  type Store = map<Pair, Match>

  /** Every match is stored under its own pair. */
  predicate KeyedByTeams(c: Store) {
    forall p | p in c :: Key(c[p]) == p
  }

  /** A store keyed by its own pairs holds as many distinct matches as pairs. */
  lemma {:induction false} KeyedStoreCount(c: Store)
    requires KeyedByTeams(c)
    ensures |c.Values| == |c|
  {
    if c != map[] {
      var p :| p in c;
      var rest := c - {p};
      assert KeyedByTeams(rest);
      KeyedStoreCount(rest);
      assert c.Values == rest.Values + {c[p]} by {
        forall m | m in c.Values ensures m in rest.Values + {c[p]} {
          var q :| q in c && c[q] == m;
          if q != p {
            assert rest[q] == m;
          }
        }
      }
      assert c[p] !in rest.Values by {
        forall q | q in rest ensures rest[q] != c[p] {
          assert Key(rest[q]) == q;
        }
      }
      assert c.Keys == rest.Keys + {p};
    }
  }

  /** Two pairs have a team in common, in any position. */
  predicate SharesTeam(p: Pair, q: Pair) {
    p.0 == q.0 || p.0 == q.1 || p.1 == q.0 || p.1 == q.1
  }

  /** Team exclusivity: no team takes part in two different active matches. */
  predicate TeamExclusive(c: Store) {
    forall p, q | p in c && q in c && p != q :: !SharesTeam(p, q)
  }

  /** `team` plays, at home or away, in some active match. */
  predicate Involves(c: Store, team: string) {
    exists p | p in c :: p.0 == team || p.1 == team
  }

  /** Saving `m` would clash with an active match of a different pair sharing one of its teams. */
  predicate Conflicts(c: Store, m: Match) {
    exists p | p in c :: p != Key(m) && SharesTeam(p, Key(m))
  }

  /** Saving the swapped pair of an active match between two different teams is a conflict. */
  lemma SwappedPairConflicts(c: Store, p: Pair, m: Match)
    requires p in c && p.0 != p.1 && Key(m) == (p.1, p.0)
    ensures Conflicts(c, m)
  {
    assert p != Key(m) && SharesTeam(p, Key(m));
  }

  /** A save without conflict keeps the store team-exclusive. */
  lemma SaveKeepsTeamExclusive(c: Store, m: Match)
    requires TeamExclusive(c) && !Conflicts(c, m)
    ensures TeamExclusive(c[Key(m) := m])
  {
    forall p, q | p in c[Key(m) := m] && q in c[Key(m) := m] && p != q
      ensures !SharesTeam(p, q)
    {
      if p == Key(m) {
        assert q in c && q != Key(m);
      } else if q == Key(m) {
        assert p in c && p != Key(m);
      }
    }
  }

  /** After removing an active pair, neither of its teams plays in any remaining match. */
  lemma RemoveFreesBothTeams(c: Store, p: Pair)
    requires TeamExclusive(c) && p in c
    ensures TeamExclusive(c - {p})
    ensures !Involves(c - {p}, p.0) && !Involves(c - {p}, p.1)
  {
    forall q | q in c - {p} ensures q.0 != p.0 && q.1 != p.0 && q.0 != p.1 && q.1 != p.1 {
      assert !SharesTeam(p, q);
    }
  }

  /**
   * The two indices agree with the abstract store: each active pair is found
   * under its home team in `byHome` and under its away team in `byAway`, and
   * neither index holds anything else.
   */
  predicate Indexes(c: Store, byHome: map<string, Match>, byAway: map<string, Match>) {
    && (forall h | h in byHome :: byHome[h].homeTeam == h && Key(byHome[h]) in c && c[Key(byHome[h])] == byHome[h])
    && (forall a | a in byAway :: byAway[a].awayTeam == a && Key(byAway[a]) in c && c[Key(byAway[a])] == byAway[a])
    && (forall p | p in c :: p.0 in byHome && byHome[p.0] == c[p] && p.1 in byAway && byAway[p.1] == c[p])
  }

  /** One of the four index lookups for the teams of `m` finds a match of another pair. */
  predicate IndexClash(byHome: map<string, Match>, byAway: map<string, Match>, m: Match) {
    || (m.homeTeam in byHome && Key(byHome[m.homeTeam]) != Key(m))
    || (m.homeTeam in byAway && Key(byAway[m.homeTeam]) != Key(m))
    || (m.awayTeam in byHome && Key(byHome[m.awayTeam]) != Key(m))
    || (m.awayTeam in byAway && Key(byAway[m.awayTeam]) != Key(m))
  }

  /** The four lookups detect exactly the conflicts of the abstract store. */
  lemma IndexClashIsConflict(c: Store, byHome: map<string, Match>, byAway: map<string, Match>, m: Match)
    requires KeyedByTeams(c) && Indexes(c, byHome, byAway)
    ensures IndexClash(byHome, byAway, m) <==> Conflicts(c, m)
  {
    if Conflicts(c, m) {
      var p :| p in c && p != Key(m) && SharesTeam(p, Key(m));
      assert Key(byHome[p.0]) == p && Key(byAway[p.1]) == p;
    }
  }

  /** Writing a conflict-free match under its own teams keeps the indices in agreement. */
  lemma SaveKeepsIndexes(c: Store, byHome: map<string, Match>, byAway: map<string, Match>, m: Match)
    requires KeyedByTeams(c) && TeamExclusive(c) && Indexes(c, byHome, byAway) && !Conflicts(c, m)
    ensures KeyedByTeams(c[Key(m) := m])
    ensures Indexes(c[Key(m) := m], byHome[m.homeTeam := m], byAway[m.awayTeam := m])
  {
    var c', bh, ba := c[Key(m) := m], byHome[m.homeTeam := m], byAway[m.awayTeam := m];
    forall h | h in bh ensures bh[h].homeTeam == h && Key(bh[h]) in c' && c'[Key(bh[h])] == bh[h] {
      if h != m.homeTeam {
        assert Key(byHome[h]).0 == h;
      }
    }
    forall a | a in ba ensures ba[a].awayTeam == a && Key(ba[a]) in c' && c'[Key(ba[a])] == ba[a] {
      if a != m.awayTeam {
        assert Key(byAway[a]).1 == a;
      }
    }
    forall p | p in c' ensures p.0 in bh && bh[p.0] == c'[p] && p.1 in ba && ba[p.1] == c'[p] {
      if p != Key(m) {
        assert !SharesTeam(p, Key(m));
      }
    }
  }

  /** Deleting an active pair under both of its teams keeps the indices in agreement. */
  lemma RemoveKeepsIndexes(c: Store, byHome: map<string, Match>, byAway: map<string, Match>, p: Pair)
    requires KeyedByTeams(c) && TeamExclusive(c) && Indexes(c, byHome, byAway) && p in c
    ensures KeyedByTeams(c - {p})
    ensures Indexes(c - {p}, byHome - {p.0}, byAway - {p.1})
  {
    var c', bh, ba := c - {p}, byHome - {p.0}, byAway - {p.1};
    forall h | h in bh ensures Key(bh[h]) in c' {
      assert Key(byHome[h]) != p;
    }
    forall a | a in ba ensures Key(ba[a]) in c' {
      assert Key(byAway[a]) != p;
    }
    forall q | q in c' ensures q.0 in bh && q.1 in ba {
      assert !SharesTeam(p, q);
    }
  }

  /**
   * The store as two indices. `byHome` maps a home team to its match,
   * `byAway` an away team to its match; `Contents` is the abstract view.
   */
  class MatchRepository {
    ghost var Contents: Store
    var byHome: map<string, Match>
    var byAway: map<string, Match>

    /** The two indices agree with each other and with `Contents`, which is team-exclusive. */
    ghost predicate Valid()
      reads this
    {
      KeyedByTeams(Contents) && TeamExclusive(Contents) && Indexes(Contents, byHome, byAway)
    }

    constructor ()
      ensures Valid() && Contents == map[]
    {
      Contents := map[];
      byHome := map[];
      byAway := map[];
    }

    /**
     * Stores `m`, replacing the match of the same pair if there is one. Fails,
     * changing nothing, when one of its teams plays in a match of another pair.
     */
    method Save(m: Match) returns (ok: bool)
      requires Valid()
      modifies this
      ensures Valid()
      ensures ok <==> !Conflicts(old(Contents), m)
      ensures Contents == if ok then old(Contents)[Key(m) := m] else old(Contents)
    {
      IndexClashIsConflict(Contents, byHome, byAway, m);
      if IndexClash(byHome, byAway, m) {
        return false;
      }
      SaveKeepsTeamExclusive(Contents, m);
      SaveKeepsIndexes(Contents, byHome, byAway, m);
      byHome := byHome[m.homeTeam := m];
      byAway := byAway[m.awayTeam := m];
      Contents := Contents[Key(m) := m];
      ok := true;
    }

    /** Whether `team` plays in some active match, at home or away. */
    method ContainsMatchForTeam(team: string) returns (b: bool)
      requires Valid()
      ensures b <==> Involves(Contents, team)
    {
      b := team in byHome || team in byAway;
      if b {
        var m := if team in byHome then byHome[team] else byAway[team];
        assert Key(m) in Contents;
      }
    }

    /** The match of exactly the ordered pair (homeTeam, awayTeam), if it is active. */
    method Get(homeTeam: string, awayTeam: string) returns (r: Option<Match>)
      requires Valid()
      ensures r == if (homeTeam, awayTeam) in Contents then Some(Contents[(homeTeam, awayTeam)]) else None
    {
      // both indices must corroborate the same pair
      if homeTeam in byHome && awayTeam in byAway && byHome[homeTeam] == byAway[awayTeam] {
        r := Some(byHome[homeTeam]);
      } else {
        r := None;
      }
    }

    /** Removes the match of the pair; fails, changing nothing, when the pair is not active. */
    method Remove(homeTeam: string, awayTeam: string) returns (ok: bool)
      requires Valid()
      modifies this
      ensures Valid()
      ensures ok <==> (homeTeam, awayTeam) in old(Contents)
      ensures Contents == old(Contents) - {(homeTeam, awayTeam)}
    {
      var current := Get(homeTeam, awayTeam);
      if current.None? {
        return false;
      }
      RemoveFreesBothTeams(Contents, (homeTeam, awayTeam));
      RemoveKeepsIndexes(Contents, byHome, byAway, (homeTeam, awayTeam));
      byHome := byHome - {homeTeam};
      byAway := byAway - {awayTeam};
      Contents := Contents - {(homeTeam, awayTeam)};
      ok := true;
    }

    /** All active matches, each exactly once, in no particular order. */
    method ListAllMatches() returns (r: seq<Match>)
      requires Valid()
      ensures multiset(r) == multiset(Contents.Values)
      ensures |r| == |Contents|
    {
      r := [];
      var remaining := byHome.Keys;
      ghost var listed: set<Match> := {};
      while remaining != {}
        invariant remaining <= byHome.Keys
        invariant multiset(r) == multiset(listed)
        invariant forall h | h in byHome :: h in remaining <==> byHome[h] !in listed
        invariant listed <= Contents.Values
        decreases remaining
      {
        var h :| h in remaining;
        r := r + [byHome[h]];
        listed := listed + {byHome[h]};
        remaining := remaining - {h};
      }
      assert listed == Contents.Values by {
        forall m | m in Contents.Values ensures m in listed {
          var p :| p in Contents && Contents[p] == m;
          assert byHome[p.0] == m;
        }
      }
      assert |r| == |multiset(listed)|;
      KeyedStoreCount(Contents);
    }
  }
}
