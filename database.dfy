/** The in-memory store standing in for the relational database: the player
    table, the match table, the singleton tournament-status row (absent until
    first created) and the counter from which new record ids are drawn. */
module Database {
  import opened Types
  import opened Tables
  import opened Standings

  /** The scoring rule: one point per win, and every match played is a win
      or a loss. */
  predicate BalancedStats(p: Player) {
    p.points == p.wins && p.matchesPlayed == p.wins + p.losses
  }

  /** A recorded match has two unequal scores and names the player with the
      higher one as winner; an unrecorded one has no scores and no winner. */
  predicate WellFormedMatch(m: Match) {
    if m.completed then
      && m.player1Score.Some? && m.player2Score.Some?
      && m.player1Score.value != m.player2Score.value
      && m.winnerId == Some(if m.player1Score.value > m.player2Score.value
                            then m.player1Id else m.player2Id)
    else
      m.player1Score.None? && m.player2Score.None? && m.winnerId.None?
  }

  function PlayerIds(ps: seq<Player>): (ids: seq<Id>)
    ensures |ids| == |ps| && forall i :: 0 <= i < |ps| ==> ids[i] == ps[i].id
  {
    seq(|ps|, i requires 0 <= i < |ps| => ps[i].id)
  }

  /** The id columns, read one row at a time. The uniqueness invariants
      below are stated on these so that they are only unfolded where a
      proof names a row's id through them. */
  function PlayerIdAt(ps: seq<Player>, i: nat): Id
    requires i < |ps|
  {
    ps[i].id
  }

  function MatchIdAt(ms: seq<Match>, i: nat): Id
    requires i < |ms|
  {
    ms[i].id
  }

  predicate DistinctPlayerIds(ps: seq<Player>) {
    forall i, j :: 0 <= i < j < |ps| ==> PlayerIdAt(ps, i) != PlayerIdAt(ps, j)
  }

  predicate DistinctMatchIds(ms: seq<Match>) {
    forall i, j :: 0 <= i < j < |ms| ==> MatchIdAt(ms, i) != MatchIdAt(ms, j)
  }

  /** DistinctPlayerIds is DistinctIds. */
  lemma DistinctPlayerIdsMeans(ps: seq<Player>)
    ensures DistinctPlayerIds(ps) <==> DistinctIds(ps)
  {
    if DistinctPlayerIds(ps) {
      forall i, j | 0 <= i < j < |ps| ensures ps[i].id != ps[j].id {
        assert PlayerIdAt(ps, i) != PlayerIdAt(ps, j);
      }
    }
    if DistinctIds(ps) {
      forall i, j | 0 <= i < j < |ps| ensures PlayerIdAt(ps, i) != PlayerIdAt(ps, j) {
      }
    }
  }

  /** No two rows of the match table share an id. */
  lemma DistinctMatchIdsMeans(ms: seq<Match>)
    ensures DistinctMatchIds(ms) <==> forall i, j :: 0 <= i < j < |ms| ==> ms[i].id != ms[j].id
  {
    if DistinctMatchIds(ms) {
      forall i, j | 0 <= i < j < |ms| ensures ms[i].id != ms[j].id {
        assert MatchIdAt(ms, i) != MatchIdAt(ms, j);
      }
    }
  }

  /** The invariant of the store: ids are non-empty, unique per table and no
      longer than the id counter; every player's stats are balanced; every
      match is well formed and refers to registered players. */
  ghost predicate ValidTables(ps: seq<Player>, ms: seq<Match>, status: Option<TournamentStatus>, nextId: nat) {
    && (forall p :: p in ps ==> 0 < |p.id| <= nextId && BalancedStats(p))
    && DistinctPlayerIds(ps)
    && (forall m :: m in ms ==>
          && 0 < |m.id| <= nextId
          && WellFormedMatch(m)
          && m.player1Id in PlayerIds(ps)
          && m.player2Id in PlayerIds(ps))
    && DistinctMatchIds(ms)
    && (status.Some? ==> status.value.id == SINGLETON)
  }

  /** The FINAL that `c` won. */
  predicate IsWonFinal(m: Match, c: Id) {
    m.phase == KNOCKOUT && m.round == Some(FINAL) && m.completed && m.winnerId == Some(c)
  }

  /** A champion is only ever the winner of a completed FINAL. */
  ghost predicate ChampionWonFinal(status: Option<TournamentStatus>, ms: seq<Match>) {
    status.Some? && status.value.championId.Some? ==>
      exists i :: 0 <= i < |ms| && IsWonFinal(ms[i], status.value.championId.value)
  }

  /** Stats that agree with the recorded matches, and a champion who won the final. */
  ghost predicate ConsistentTables(ps: seq<Player>, ms: seq<Match>, status: Option<TournamentStatus>) {
    StatsAgree(ps, ms) && ChampionWonFinal(status, ms)
  }

  /** Every match joins two different players. createMatch does not check
      this; see TotalPointsInvariant for why it matters. */
  predicate NoSelfMatches(ms: seq<Match>) {
    forall m :: m in ms ==> m.player1Id != m.player2Id
  }

  /** In a valid, consistent store whose matches all join two different
      players, the points of all players add up to the number of completed
      matches. */
  lemma TotalPointsInvariant(ps: seq<Player>, ms: seq<Match>, status: Option<TournamentStatus>, nextId: nat)
    requires ValidTables(ps, ms, status, nextId) && ConsistentTables(ps, ms, status)
    requires NoSelfMatches(ms)
    ensures TotalPoints(ps) == |Filter(ms, Completed)|
  {
    DistinctPlayerIdsMeans(ps);
    forall m | m in ms ensures CountedOnce(ps, m) {
      if m.completed {
        var w := m.winnerId.value;
        var ids := PlayerIds(ps);
        assert w in ids;
        var i :| 0 <= i < |ids| && ids[i] == w;
        assert ps[i] in ps && ps[i].id == w;
      }
    }
    TotalPointsAreCompletedMatches(ps, ms);
  }

  class Store {
    var players: seq<Player>
    var matches: seq<Match>
    var status: Option<TournamentStatus>
    var nextId: nat

    ghost predicate Valid()
      reads this
    {
      ValidTables(players, matches, status, nextId)
    }

    ghost predicate Consistent()
      reads this
    {
      ConsistentTables(players, matches, status)
    }

    /** An empty database: no players, no matches, no status row yet. */
    constructor ()
      ensures Valid() && Consistent()
      ensures players == [] && matches == [] && status == None && nextId == 0
    {
      players, matches, status, nextId := [], [], None, 0;
    }
  }
}
