/** The standings recomputed from the match table. Recording a score calls
    updatePlayerStats once for the match's first slot and once for its second
    (src/lib/services/match-service.ts:115-116), so a player's wins are the
    completed slots they hold as the winner and their losses the completed
    slots they hold as the loser. */
module Standings {
  import opened Types
  import opened Tables

  /** 1 for each slot of `m` that `id` won, once `m` is completed. */
  function Won(m: Match, id: Id): nat {
    if !m.completed then 0
    else (if m.player1Id == id && m.winnerId == Some(id) then 1 else 0) +
         (if m.player2Id == id && m.winnerId == Some(id) then 1 else 0)
  }

  /** 1 for each slot of `m` that `id` lost, once `m` is completed. */
  function Lost(m: Match, id: Id): nat {
    if !m.completed then 0
    else (if m.player1Id == id && m.winnerId != Some(id) then 1 else 0) +
         (if m.player2Id == id && m.winnerId != Some(id) then 1 else 0)
  }

  function WinsIn(ms: seq<Match>, id: Id): nat {
    if ms == [] then 0 else WinsIn(ms[..|ms| - 1], id) + Won(ms[|ms| - 1], id)
  }

  function LossesIn(ms: seq<Match>, id: Id): nat {
    if ms == [] then 0 else LossesIn(ms[..|ms| - 1], id) + Lost(ms[|ms| - 1], id)
  }

  /** Every player's wins and losses are the ones the match table records. */
  ghost predicate StatsAgree(ps: seq<Player>, ms: seq<Match>) {
    forall p :: p in ps ==> p.wins == WinsIn(ms, p.id) && p.losses == LossesIn(ms, p.id)
  }

  /** A match involving `id` in neither slot. */
  predicate Uninvolved(m: Match, id: Id) {
    m.player1Id != id && m.player2Id != id
  }

  lemma WinsInAppend(ms: seq<Match>, m: Match, id: Id)
    ensures WinsIn(ms + [m], id) == WinsIn(ms, id) + Won(m, id)
    ensures LossesIn(ms + [m], id) == LossesIn(ms, id) + Lost(m, id)
  {
    assert (ms + [m])[..|ms|] == ms;
  }

  /** Replacing the match at `k` changes the counts by the difference in what
      the old and the new record contribute. */
  lemma {:induction false} WinsInUpdate(ms: seq<Match>, k: nat, m: Match, id: Id)
    requires k < |ms|
    ensures WinsIn(ms[k := m], id) + Won(ms[k], id) == WinsIn(ms, id) + Won(m, id)
    ensures LossesIn(ms[k := m], id) + Lost(ms[k], id) == LossesIn(ms, id) + Lost(m, id)
  {
    var n := |ms| - 1;
    if k == n {
      assert ms[k := m][..n] == ms[..n];
    } else {
      assert ms[k := m][..n] == ms[..n][k := m];
      WinsInUpdate(ms[..n], k, m, id);
    }
  }

  /** A player who appears in no match has neither wins nor losses. */
  lemma {:induction false} WinsInUninvolved(ms: seq<Match>, id: Id)
    requires forall m :: m in ms ==> Uninvolved(m, id)
    ensures WinsIn(ms, id) == 0 && LossesIn(ms, id) == 0
  {
    if ms != [] {
      assert ms[|ms| - 1] in ms;
      assert forall m :: m in ms[..|ms| - 1] ==> m in ms;
      WinsInUninvolved(ms[..|ms| - 1], id);
    }
  }

  // ---- totals over the player table ----------------------------------------

  ghost predicate DistinctIds(ps: seq<Player>) {
    forall i, j :: 0 <= i < j < |ps| ==> ps[i].id != ps[j].id
  }

  function TotalPoints(ps: seq<Player>): nat {
    if ps == [] then 0 else ps[0].points + TotalPoints(ps[1..])
  }

  function TotalWinsIn(ps: seq<Player>, ms: seq<Match>): nat {
    if ps == [] then 0 else WinsIn(ms, ps[0].id) + TotalWinsIn(ps[1..], ms)
  }

  /** Slots of `m` won by the players of `ps`. */
  function WonBy(ps: seq<Player>, m: Match): nat {
    if ps == [] then 0 else Won(m, ps[0].id) + WonBy(ps[1..], m)
  }

  /** A completed match between two different players, whose winner is one
      of them and is registered. */
  ghost predicate CountedOnce(ps: seq<Player>, m: Match) {
    m.completed ==>
      m.player1Id != m.player2Id &&
      m.winnerId.Some? && (m.winnerId.value == m.player1Id || m.winnerId.value == m.player2Id) &&
      exists p :: p in ps && p.id == m.winnerId.value
  }

  lemma {:induction false} WonByNobody(ps: seq<Player>, m: Match)
    requires m.completed && m.winnerId.Some?
    requires forall p :: p in ps ==> p.id != m.winnerId.value
    ensures WonBy(ps, m) == 0
  {
    if ps != [] {
      assert ps[0] in ps;
      assert forall p :: p in ps[1..] ==> p in ps;
      WonByNobody(ps[1..], m);
    }
  }

  /** Every counted match is won by exactly one registered player. */
  lemma {:induction false} WonByOnce(ps: seq<Player>, m: Match)
    requires DistinctIds(ps) && CountedOnce(ps, m)
    ensures WonBy(ps, m) == if m.completed then 1 else 0
  {
    if ps != [] {
      var w := m.winnerId;
      if m.completed && ps[0].id == w.value {
        forall p | p in ps[1..] ensures p.id != w.value {
          var j :| 0 <= j < |ps[1..]| && ps[1..][j] == p;
          assert ps[0].id != ps[j + 1].id;
        }
        WonByNobody(ps[1..], m);
      } else {
        if m.completed {
          var p :| p in ps && p.id == w.value;
          assert p != ps[0];
          assert p in ps[1..];
        }
        WonByOnce(ps[1..], m);
      }
    }
  }

  lemma {:induction false} TotalWinsInAppend(ps: seq<Player>, ms: seq<Match>, m: Match)
    ensures TotalWinsIn(ps, ms + [m]) == TotalWinsIn(ps, ms) + WonBy(ps, m)
  {
    if ps != [] {
      WinsInAppend(ms, m, ps[0].id);
      TotalWinsInAppend(ps[1..], ms, m);
    }
  }

  /** Summed over a table of distinct players, the wins the match table
      records are the number of completed matches. */
  lemma {:induction false} TotalWinsAreCompletedMatches(ps: seq<Player>, ms: seq<Match>)
    requires DistinctIds(ps)
    requires forall m :: m in ms ==> CountedOnce(ps, m)
    ensures TotalWinsIn(ps, ms) == |Filter(ms, Completed)|
  {
    if ms == [] {
      TotalWinsEmpty(ps);
    } else {
      var n := |ms| - 1;
      assert ms == ms[..n] + [ms[n]];
      assert forall m :: m in ms[..n] ==> m in ms;
      TotalWinsAreCompletedMatches(ps, ms[..n]);
      TotalWinsInAppend(ps, ms[..n], ms[n]);
      WonByOnce(ps, ms[n]);
      FilterAppend(ms[..n], [ms[n]], Completed);
    }
  }

  lemma {:induction false} TotalWinsEmpty(ps: seq<Player>)
    ensures TotalWinsIn(ps, []) == 0
  {
    if ps != [] {
      TotalWinsEmpty(ps[1..]);
    }
  }

  /** Under the scoring rule (one point per win) and with the stats agreeing
      with the match table, the points held by all players together equal
      the number of completed matches. */
  lemma {:induction false} TotalPointsAreCompletedMatches(ps: seq<Player>, ms: seq<Match>)
    requires DistinctIds(ps)
    requires forall p :: p in ps ==> p.points == p.wins
    requires StatsAgree(ps, ms)
    requires forall m :: m in ms ==> CountedOnce(ps, m)
    ensures TotalPoints(ps) == |Filter(ms, Completed)|
  {
    TotalPointsAreTotalWins(ps, ms);
    TotalWinsAreCompletedMatches(ps, ms);
  }

  lemma {:induction false} TotalPointsAreTotalWins(ps: seq<Player>, ms: seq<Match>)
    requires forall p :: p in ps ==> p.points == p.wins
    requires StatsAgree(ps, ms)
    ensures TotalPoints(ps) == TotalWinsIn(ps, ms)
  {
    if ps != [] {
      assert ps[0] in ps;
      assert forall p :: p in ps[1..] ==> p in ps;
      TotalPointsAreTotalWins(ps[1..], ms);
    }
  }
}
