/** The match repository (src/lib/services/match-service.ts): the filter
    queries over the match table, match creation with the group-phase
    duplicate-pair check, and score recording. */
module MatchService {
  import opened Types
  import opened Tables
  import opened Standings
  import opened Database
  import PlayerService

  // ---- the `where` clauses of the queries ---------------------------------

  predicate IsGroup(m: Match) { m.phase == GROUP }
  predicate IsKnockout(m: Match) { m.phase == KNOCKOUT }
  predicate IsCompletedGroup(m: Match) { m.phase == GROUP && m.completed }
  predicate IsPendingGroup(m: Match) { m.phase == GROUP && !m.completed }
  predicate IsSemiFinal(m: Match) { m.phase == KNOCKOUT && m.round == Some(SEMI_FINAL) }
  predicate IsFinal(m: Match) { m.phase == KNOCKOUT && m.round == Some(FINAL) }
  predicate IsCompletedFinal(m: Match) { m.phase == KNOCKOUT && m.round == Some(FINAL) && m.completed }

  // ---- queries --------------------------------------------------------------

  /** getAllMatches: every match, incomplete ones first. */
  function GetAllMatches(ms: seq<Match>): (r: seq<Match>)
    ensures multiset(r) == multiset(ms)
    ensures forall i, j :: 0 <= i < j < |r| && r[i].completed ==> r[j].completed
  {
    OrderByCompletedAsc(ms)
  }

  /** The position of the match with id `id`, or |ms| if none. */
  function MatchIndex(ms: seq<Match>, id: Id): (k: nat)
    ensures k <= |ms|
    ensures k < |ms| ==> ms[k].id == id
    ensures forall i :: 0 <= i < k ==> ms[i].id != id
  {
    FirstIndex(ms, (m: Match) => m.id == id)
  }

  /** getMatchById: the match with that id, if any. */
  function GetMatchById(ms: seq<Match>, id: Id): (r: Option<Match>)
    ensures r.Some? ==> r.value in ms && r.value.id == id
    ensures r.None? <==> forall m :: m in ms ==> m.id != id
  {
    var k := MatchIndex(ms, id);
    if k < |ms| then Some(ms[k]) else None
  }

  /** getMatchesByPhase: the matches of one phase, incomplete ones first. */
  function GetMatchesByPhase(ms: seq<Match>, phase: Phase): (r: seq<Match>)
    ensures forall m :: m in r <==> m in ms && m.phase == phase
    ensures multiset(r) <= multiset(ms)
    ensures forall i, j :: 0 <= i < j < |r| && r[i].completed ==> r[j].completed
  {
    var s := Filter(ms, (m: Match) => m.phase == phase);
    SameMultisetSameRows(OrderByCompletedAsc(s), s);
    OrderByCompletedAsc(s)
  }

  /** getMatchesByRound: the matches of one round, whatever their phase. */
  function GetMatchesByRound(ms: seq<Match>, round: Round): (r: seq<Match>)
    ensures forall m :: m in r <==> m in ms && m.round == Some(round)
    ensures multiset(r) <= multiset(ms)
  {
    Filter(ms, (m: Match) => m.round == Some(round))
  }

  /** getIncompleteMatchesCount: how many matches still await a score. */
  function GetIncompleteMatchesCount(ms: seq<Match>): (n: nat)
    ensures n + |Filter(ms, Completed)| == |ms|
    ensures n == 0 <==> forall m :: m in ms ==> m.completed
  {
    var s := Filter(ms, Pending);
    assert s != [] ==> s[0] in s;
    PendingCompletedSplit(ms);
    assert |multiset(s)| + |multiset(Filter(ms, Completed))| == |multiset(ms)|;
    |s|
  }

  function GetAllGroupMatches(ms: seq<Match>): (r: seq<Match>)
    ensures forall m :: m in r <==> m in ms && m.phase == GROUP
    ensures multiset(r) <= multiset(ms)
  {
    Filter(ms, IsGroup)
  }

  function GetCompletedGroupMatches(ms: seq<Match>): (r: seq<Match>)
    ensures forall m :: m in r <==> m in ms && m.phase == GROUP && m.completed
    ensures multiset(r) <= multiset(ms)
  {
    Filter(ms, IsCompletedGroup)
  }

  function GetIncompleteGroupMatches(ms: seq<Match>): (r: seq<Match>)
    ensures forall m :: m in r <==> m in ms && m.phase == GROUP && !m.completed
    ensures multiset(r) <= multiset(ms)
  {
    Filter(ms, IsPendingGroup)
  }

  function GetKnockoutMatches(ms: seq<Match>): (r: seq<Match>)
    ensures forall m :: m in r <==> m in ms && m.phase == KNOCKOUT
    ensures multiset(r) <= multiset(ms)
  {
    Filter(ms, IsKnockout)
  }

  function GetSemiFinalsMatches(ms: seq<Match>): (r: seq<Match>)
    ensures forall m :: m in r <==> m in ms && m.phase == KNOCKOUT && m.round == Some(SEMI_FINAL)
    ensures multiset(r) <= multiset(ms)
  {
    Filter(ms, IsSemiFinal)
  }

  /** getFinalMatch: the first KNOCKOUT/FINAL match, if any. */
  function GetFinalMatch(ms: seq<Match>): (r: Option<Match>)
    ensures r.Some? ==> r.value in ms && r.value.phase == KNOCKOUT && r.value.round == Some(FINAL)
    ensures r.None? <==> forall m :: m in ms ==> !(m.phase == KNOCKOUT && m.round == Some(FINAL))
  {
    FindFirst(ms, IsFinal)
  }

  // ---- createMatch ----------------------------------------------------------

  /** `m` is a GROUP match joining `a` and `b`, in either order. */
  predicate JoinsInGroup(m: Match, a: Id, b: Id) {
    m.phase == GROUP &&
    ((m.player1Id == a && m.player2Id == b) || (m.player1Id == b && m.player2Id == a))
  }

  predicate GroupPairTaken(ms: seq<Match>, a: Id, b: Id) {
    exists m :: m in ms && JoinsInGroup(m, a, b)
  }

  /** The record createMatch inserts: unplayed, no scores, no winner. */
  function NewMatch(id: Id, data: CreateMatchInput): Match {
    Match(id, data.player1Id, data.player2Id, None, None, None, data.phase, data.round, false)
  }

  /** Why createMatch refuses `data`, if it does: a GROUP pairing that
      already exists, or (the database's foreign keys) an unknown player. */
  function CreateMatchError(ps: seq<Player>, ms: seq<Match>, data: CreateMatchInput): (e: Option<Error>)
    ensures e.None? <==>
      !(data.phase == GROUP && GroupPairTaken(ms, data.player1Id, data.player2Id)) &&
      data.player1Id in PlayerIds(ps) && data.player2Id in PlayerIds(ps)
    ensures e.Some? && data.phase == GROUP && GroupPairTaken(ms, data.player1Id, data.player2Id) ==>
      e.value == DuplicateGroupMatch
  {
    if data.phase == GROUP && GroupPairTaken(ms, data.player1Id, data.player2Id) then
      Some(DuplicateGroupMatch)
    else if data.player1Id !in PlayerIds(ps) || data.player2Id !in PlayerIds(ps) then
      Some(ForeignKeyViolation)
    else
      None
  }

  /** Appending an unplayed match changes no standing and keeps the champion's final. */
  lemma AppendPendingKeepsConsistency(ps: seq<Player>, ms: seq<Match>, status: Option<TournamentStatus>, m: Match)
    requires !m.completed
    requires ConsistentTables(ps, ms, status)
    ensures ConsistentTables(ps, ms + [m], status)
  {
    forall p | p in ps
      ensures p.wins == WinsIn(ms + [m], p.id) && p.losses == LossesIn(ms + [m], p.id)
    {
      WinsInAppend(ms, m, p.id);
    }
    if status.Some? && status.value.championId.Some? {
      var i :| 0 <= i < |ms| && IsWonFinal(ms[i], status.value.championId.value);
      assert (ms + [m])[i] == ms[i];
    }
  }

  /** Appending an unplayed match with a fresh id between registered
      players keeps the store valid. */
  lemma AppendKeepsValid(ps: seq<Player>, ms: seq<Match>, status: Option<TournamentStatus>, nextId: nat,
                         data: CreateMatchInput)
    requires ValidTables(ps, ms, status, nextId)
    requires data.player1Id in PlayerIds(ps) && data.player2Id in PlayerIds(ps)
    ensures NewMatch(FreshId(nextId), data).id !in (set m | m in ms :: m.id)
    ensures ValidTables(ps, ms + [NewMatch(FreshId(nextId), data)], status, nextId + 1)
  {
    var m := NewMatch(FreshId(nextId), data);
    var ms' := ms + [m];
    DistinctMatchIdsMeans(ms);
    forall i, j | 0 <= i < j < |ms'| ensures MatchIdAt(ms', i) != MatchIdAt(ms', j) {
      if j == |ms| {
        assert ms[i] in ms;
      }
    }
    forall p | p in ps ensures 0 < |p.id| <= nextId + 1 { }
  }

  /** No two GROUP matches join the same two players, in either order. */
  predicate GroupPairsUnique(ms: seq<Match>) {
    forall i, j :: 0 <= i < j < |ms| && ms[i].phase == GROUP ==>
      !JoinsInGroup(ms[j], ms[i].player1Id, ms[i].player2Id)
  }

  /** A match that passes createMatch's checks keeps GROUP pairings unique. */
  lemma CreateKeepsGroupPairsUnique(ps: seq<Player>, ms: seq<Match>, data: CreateMatchInput, id: Id)
    requires GroupPairsUnique(ms) && CreateMatchError(ps, ms, data).None?
    ensures GroupPairsUnique(ms + [NewMatch(id, data)])
  {
    var ms' := ms + [NewMatch(id, data)];
    forall i, j | 0 <= i < j < |ms'| && ms'[i].phase == GROUP
      ensures !JoinsInGroup(ms'[j], ms'[i].player1Id, ms'[i].player2Id)
    {
      if j == |ms| {
        assert ms'[i] == ms[i] && ms[i] in ms;
      } else {
        assert ms'[i] == ms[i] && ms'[j] == ms[j];
      }
    }
  }

  /** createMatch: checks the group-phase pairing and inserts one unplayed match. */
  method CreateMatch(db: Store, data: CreateMatchInput) returns (r: Result<Match>)
    requires db.Valid()
    modifies db
    ensures db.Valid()
    ensures db.players == old(db.players) && db.status == old(db.status)
    ensures var e := CreateMatchError(old(db.players), old(db.matches), data);
      && (r.Failure? <==> e.Some?)
      && (r.Failure? ==> r.error == e.value && db.matches == old(db.matches) && db.nextId == old(db.nextId))
    ensures r.Success? ==>
      && r.value == NewMatch(FreshId(old(db.nextId)), data)
      && r.value.id !in (set m | m in old(db.matches) :: m.id)
      && db.matches == old(db.matches) + [r.value]
      && db.nextId == old(db.nextId) + 1
    ensures old(db.Consistent()) ==> db.Consistent()
  {
    if data.phase == GROUP {
      var existing := FindFirst(db.matches, (m: Match) => JoinsInGroup(m, data.player1Id, data.player2Id));
      if existing.Some? {
        return Failure(DuplicateGroupMatch);
      }
    }
    if data.player1Id !in PlayerIds(db.players) || data.player2Id !in PlayerIds(db.players) {
      return Failure(ForeignKeyViolation);
    }
    var m := NewMatch(FreshId(db.nextId), data);
    if old(db.Consistent()) {
      AppendPendingKeepsConsistency(db.players, db.matches, db.status, m);
    }
    AppendKeepsValid(db.players, db.matches, db.status, db.nextId, data);
    db.matches := db.matches + [m];
    db.nextId := db.nextId + 1;
    r := Success(m);
  }

  // ---- updateMatchScore -----------------------------------------------------

  /** The winner of a match scored `s1` to `s2`: the player with the strictly greater score. */
  function WinnerOf(m: Match, s1: int, s2: int): (w: Id)
    requires s1 != s2
    ensures w == m.player1Id || w == m.player2Id
    ensures w == m.player1Id <== s1 > s2
    ensures w == m.player2Id <== s2 > s1
  {
    if s1 > s2 then m.player1Id else m.player2Id
  }

  /** The record updateMatchScore writes back. */
  function Scored(m: Match, s1: int, s2: int): (r: Match)
    requires s1 != s2
    ensures WellFormedMatch(r) && r.completed
    ensures r.id == m.id && r.player1Id == m.player1Id && r.player2Id == m.player2Id
    ensures r.phase == m.phase && r.round == m.round
    ensures r.player1Score == Some(s1) && r.player2Score == Some(s2)
  {
    m.(player1Score := Some(s1), player2Score := Some(s2),
       winnerId := Some(WinnerOf(m, s1, s2)), completed := true)
  }

  /** updatePlayerStats applied to one player of the table (no-op for an unknown id). */
  function Credit(ps: seq<Player>, id: Id, isWinner: bool): seq<Player> {
    var k := PlayerService.PlayerIndex(ps, id);
    if k < |ps| then ps[k := PlayerService.ApplyResult(ps[k], isWinner)] else ps
  }

  /** The player table after the two stat updates of a recorded match `m`. */
  function RecordResult(ps: seq<Player>, m: Match): seq<Player>
    requires m.winnerId.Some?
  {
    var w := m.winnerId.value;
    Credit(Credit(ps, m.player1Id, w == m.player1Id), m.player2Id, w == m.player2Id)
  }

  /** Why updateMatchScore refuses `data`, if it does. Negative scores are not among the reasons. */
  function UpdateScoreError(ms: seq<Match>, data: UpdateMatchScoreInput): (e: Option<Error>)
    ensures e.None? <==>
      MatchIndex(ms, data.id) < |ms| && !ms[MatchIndex(ms, data.id)].completed &&
      data.player1Score != data.player2Score
  {
    var k := MatchIndex(ms, data.id);
    if k == |ms| then Some(MatchNotFound(data.id))
    else if ms[k].completed then Some(MatchAlreadyCompleted)
    else if data.player1Score == data.player2Score then Some(EqualScores)
    else None
  }

  /** Once scored, a match refuses every later score for it: a match goes
      from unplayed to completed at most once. */
  lemma ScoredOnce(ms: seq<Match>, data: UpdateMatchScoreInput, again: UpdateMatchScoreInput)
    requires UpdateScoreError(ms, data).None? && again.id == data.id
    ensures var k := MatchIndex(ms, data.id);
      UpdateScoreError(ms[k := Scored(ms[k], data.player1Score, data.player2Score)], again) ==
        Some(MatchAlreadyCompleted)
  {
    var k := MatchIndex(ms, data.id);
    var ms' := ms[k := Scored(ms[k], data.player1Score, data.player2Score)];
    assert ms'[k].id == again.id;
    assert forall i :: 0 <= i < k ==> ms'[i] == ms[i];
  }

  /** The two stat updates credit each registered player with exactly the
      wins and losses the newly completed match `m` gives them. */
  lemma RecordResultCredits(ps: seq<Player>, m: Match, i: nat)
    requires DistinctIds(ps) && m.completed && m.winnerId.Some?
    requires m.winnerId.value == m.player1Id || m.winnerId.value == m.player2Id
    requires i < |ps|
    ensures |RecordResult(ps, m)| == |ps|
    ensures var q := RecordResult(ps, m)[i];
      && q.id == ps[i].id && q.name == ps[i].name
      && q.wins == ps[i].wins + Won(m, ps[i].id)
      && q.losses == ps[i].losses + Lost(m, ps[i].id)
      && q.points == ps[i].points + Won(m, ps[i].id)
      && q.matchesPlayed == ps[i].matchesPlayed + Won(m, ps[i].id) + Lost(m, ps[i].id)
  {
    var w := m.winnerId.value;
    var ps1 := Credit(ps, m.player1Id, w == m.player1Id);
    var k1 := PlayerService.PlayerIndex(ps, m.player1Id);
    assert |ps1| == |ps|;
    assert ps1[i].id == ps[i].id;
    assert forall j :: 0 <= j < |ps1| ==> ps1[j].id == ps[j].id;
    assert DistinctIds(ps1);
    var k2 := PlayerService.PlayerIndex(ps1, m.player2Id);
    assert (k1 == i) <==> ps[i].id == m.player1Id;
    assert (k2 == i) <==> ps[i].id == m.player2Id;
  }

  /** Recording a score keeps the stats in agreement with the match table and
      keeps the champion's final. */
  lemma RecordKeepsConsistency(ps: seq<Player>, ms: seq<Match>, status: Option<TournamentStatus>,
                               k: nat, s1: int, s2: int)
    requires DistinctPlayerIds(ps)
    requires k < |ms| && !ms[k].completed && s1 != s2
    requires ConsistentTables(ps, ms, status)
    ensures ConsistentTables(RecordResult(ps, Scored(ms[k], s1, s2)), ms[k := Scored(ms[k], s1, s2)], status)
  {
    DistinctPlayerIdsMeans(ps);
    var m := Scored(ms[k], s1, s2);
    var ps' := RecordResult(ps, m);
    var ms' := ms[k := m];
    forall p | p in ps'
      ensures p.wins == WinsIn(ms', p.id) && p.losses == LossesIn(ms', p.id)
    {
      RecordResultCredits(ps, m, 0);
      var i :| 0 <= i < |ps'| && ps'[i] == p;
      RecordResultCredits(ps, m, i);
      assert ps[i] in ps;
      WinsInUpdate(ms, k, m, p.id);
    }
    if status.Some? && status.value.championId.Some? {
      var i :| 0 <= i < |ms| && IsWonFinal(ms[i], status.value.championId.value);
      assert ms'[i] == ms[i];
    }
  }

  /** Writing the scored record back keeps the store valid. */
  lemma ScoredKeepsValid(ps: seq<Player>, ms: seq<Match>, status: Option<TournamentStatus>, nextId: nat,
                         k: nat, s1: int, s2: int)
    requires ValidTables(ps, ms, status, nextId)
    requires k < |ms| && s1 != s2
    ensures ValidTables(ps, ms[k := Scored(ms[k], s1, s2)], status, nextId)
  {
    var ms' := ms[k := Scored(ms[k], s1, s2)];
    forall m | m in ms'
      ensures 0 < |m.id| <= nextId && WellFormedMatch(m) &&
              m.player1Id in PlayerIds(ps) && m.player2Id in PlayerIds(ps)
    {
      var i :| 0 <= i < |ms'| && ms'[i] == m;
      assert ms[i] in ms;
    }
    forall i, j | 0 <= i < j < |ms'| ensures MatchIdAt(ms', i) != MatchIdAt(ms', j) {
      assert MatchIdAt(ms', i) == MatchIdAt(ms, i) && MatchIdAt(ms', j) == MatchIdAt(ms, j);
    }
  }

  /** Writing a score keeps both player columns of the match, so a table
      without self-matches stays without. */
  lemma ScoredKeepsNoSelf(ms: seq<Match>, k: nat, s1: int, s2: int)
    requires NoSelfMatches(ms) && k < |ms| && s1 != s2
    ensures NoSelfMatches(ms[k := Scored(ms[k], s1, s2)])
  {
    var ms' := ms[k := Scored(ms[k], s1, s2)];
    forall m | m in ms' ensures m.player1Id != m.player2Id {
      var t :| 0 <= t < |ms'| && ms'[t] == m;
      assert ms[t] in ms;
    }
  }

  /** updateMatchScore: rejects an unknown id, a completed match and equal
      scores; otherwise credits both players and stores the result. */
  method UpdateMatchScore(db: Store, data: UpdateMatchScoreInput) returns (r: Result<Match>)
    requires db.Valid()
    modifies db
    ensures db.Valid()
    ensures db.status == old(db.status) && db.nextId == old(db.nextId)
    ensures var e := UpdateScoreError(old(db.matches), data);
      && (r.Failure? <==> e.Some?)
      && (r.Failure? ==> r.error == e.value && db.matches == old(db.matches) && db.players == old(db.players))
    ensures r.Success? ==>
      var k := MatchIndex(old(db.matches), data.id);
      && k < |old(db.matches)|
      && r.value == Scored(old(db.matches)[k], data.player1Score, data.player2Score)
      && db.matches == old(db.matches)[k := r.value]
      && db.players == RecordResult(old(db.players), r.value)
    ensures NoSelfMatches(old(db.matches)) ==> NoSelfMatches(db.matches)
    ensures old(db.Consistent()) ==> db.Consistent()
  {
    var k := MatchIndex(db.matches, data.id);
    if k == |db.matches| {
      return Failure(MatchNotFound(data.id));
    }
    var m := db.matches[k];
    if m.completed {
      return Failure(MatchAlreadyCompleted);
    }
    if data.player1Score == data.player2Score {
      return Failure(EqualScores);
    }
    ghost var ms0 := db.matches;
    var scored := RecordScore(db, k, data.player1Score, data.player2Score);
    r := Success(scored);
    if NoSelfMatches(ms0) {
      ScoredKeepsNoSelf(ms0, k, data.player1Score, data.player2Score);
    }
  }

  /** The success path of updateMatchScore: both stat updates, then the
      match row rewritten as completed. */
  method RecordScore(db: Store, k: nat, s1: int, s2: int) returns (scored: Match)
    requires db.Valid()
    requires k < |db.matches| && !db.matches[k].completed && s1 != s2
    modifies db
    ensures db.Valid()
    ensures db.status == old(db.status) && db.nextId == old(db.nextId)
    ensures scored == Scored(old(db.matches)[k], s1, s2)
    ensures db.matches == old(db.matches)[k := scored]
    ensures db.players == RecordResult(old(db.players), scored)
    ensures old(db.Consistent()) ==> db.Consistent()
  {
    var m := db.matches[k];
    scored := Scored(m, s1, s2);
    ghost var ps0, ms0 := db.players, db.matches;
    ghost var was := db.Consistent();
    assert m in ms0;
    CreditBoth(db, scored);
    ScoredKeepsValid(db.players, ms0, db.status, db.nextId, k, s1, s2);
    db.matches := db.matches[k := scored];
    assert db.Valid();
    if was {
      RecordKeepsConsistency(ps0, ms0, db.status, k, s1, s2);
      assert db.players == RecordResult(ps0, scored) && db.matches == ms0[k := scored];
    }
  }

  /** The two updatePlayerStats calls of a recorded match, first slot first. */
  method CreditBoth(db: Store, m: Match)
    requires db.Valid()
    requires m.winnerId.Some?
    requires m.player1Id in PlayerIds(db.players) && m.player2Id in PlayerIds(db.players)
    modifies db
    ensures db.Valid()
    ensures db.matches == old(db.matches) && db.status == old(db.status) && db.nextId == old(db.nextId)
    ensures db.players == RecordResult(old(db.players), m)
  {
    var w := m.winnerId.value;
    ghost var ps0 := db.players;
    var r1 := PlayerService.UpdatePlayerStats(db, m.player1Id, w == m.player1Id);
    assert r1.Success?;
    ghost var ps1 := db.players;
    assert ps1 == Credit(ps0, m.player1Id, w == m.player1Id);
    assert PlayerIds(ps1) == PlayerIds(ps0);
    var r2 := PlayerService.UpdatePlayerStats(db, m.player2Id, w == m.player2Id);
    assert r2.Success?;
  }
}
