/** The score endpoint (src/app/api/matches/scores/route.ts): validates the
    request body, records the score through updateMatchScore, then runs the
    group-phase check and the knockout-phase check, in that order. */
module ScoresRoute {
  import opened Types
  import opened Database
  import MatchService
  import TournamentService

  /** The JSON body; a field the client left out is None. */
  datatype ScoreRequest = ScoreRequest(id: Option<Id>, player1Score: Option<int>, player2Score: Option<int>)

  /** The id is present and not empty, and both scores are present. */
  predicate HasFields(req: ScoreRequest) {
    req.id.Some? && req.id.value != "" && req.player1Score.Some? && req.player2Score.Some?
  }

  /** Why the route answers 400 before touching the store, if it does:
      missing fields, then equal scores, then a negative score. */
  function RequestError(req: ScoreRequest): (e: Option<Error>)
    ensures e.None? <==>
      HasFields(req) && req.player1Score.value != req.player2Score.value &&
      req.player1Score.value >= 0 && req.player2Score.value >= 0
    ensures e.Some? ==> e.value == MissingFields || e.value == EqualScores || e.value == NegativeScore
    ensures !HasFields(req) ==> e == Some(MissingFields)
  {
    if !HasFields(req) then Some(MissingFields)
    else if req.player1Score.value == req.player2Score.value then Some(EqualScores)
    else if req.player1Score.value < 0 || req.player2Score.value < 0 then Some(NegativeScore)
    else None
  }

  /** The service input a well-formed body stands for. */
  function Input(req: ScoreRequest): UpdateMatchScoreInput
    requires HasFields(req)
  {
    UpdateMatchScoreInput(req.id.value, req.player1Score.value, req.player2Score.value)
  }

  /** The route gets as far as writing the score into the match table `ms`. */
  predicate Accepted(ms: seq<Match>, req: ScoreRequest) {
    RequestError(req).None? && MatchService.UpdateScoreError(ms, Input(req)).None?
  }

  /** The position of the match being scored. */
  function Target(ms: seq<Match>, req: ScoreRequest): (k: nat)
    requires Accepted(ms, req)
    ensures k < |ms| && !ms[k].completed && ms[k].id == req.id.value
  {
    MatchService.MatchIndex(ms, req.id.value)
  }

  /** The match record the route writes back and returns. */
  function ScoredMatch(ms: seq<Match>, req: ScoreRequest): Match
    requires Accepted(ms, req)
  {
    MatchService.Scored(ms[Target(ms, req)], req.player1Score.value, req.player2Score.value)
  }

  /** The match table once the score is written. */
  function Rescored(ms: seq<Match>, req: ScoreRequest): seq<Match>
    requires Accepted(ms, req)
  {
    ms[Target(ms, req) := ScoredMatch(ms, req)]
  }

  /** The status row after the two phase checks run on the table `ms`. When
      the group phase is over but there is no status row, the group check
      throws and the knockout check never runs; the row stays missing
      either way. */
  function StatusAfterChecks(ms: seq<Match>, s: Option<TournamentStatus>): Option<TournamentStatus> {
    TournamentService.AfterKnockoutCheck(ms, TournamentService.AfterGroupCheck(ms, s))
  }

  /** POST /api/matches/scores. A rejected body and a refused update change
      nothing; otherwise the score is stored, the players are credited, and
      the phase checks move the status row on. The 500 answer for a missing
      status row comes after the score has been stored. */
  method Post(db: Store, req: ScoreRequest) returns (r: Result<Match>)
    requires db.Valid()
    modifies db
    ensures db.Valid() && db.nextId == old(db.nextId)
    ensures RequestError(req).Some? ==>
      && r == Failure(RequestError(req).value)
      && db.players == old(db.players) && db.matches == old(db.matches) && db.status == old(db.status)
    ensures RequestError(req).None? && MatchService.UpdateScoreError(old(db.matches), Input(req)).Some? ==>
      && r == Failure(MatchService.UpdateScoreError(old(db.matches), Input(req)).value)
      && db.players == old(db.players) && db.matches == old(db.matches) && db.status == old(db.status)
    ensures Accepted(old(db.matches), req) ==>
      var ms := Rescored(old(db.matches), req);
      && db.matches == ms
      && db.players == MatchService.RecordResult(old(db.players), ScoredMatch(old(db.matches), req))
      && db.status == StatusAfterChecks(ms, old(db.status))
      && (r.Failure? <==> TournamentService.GroupPhaseOver(ms) && old(db.status).None?)
      && (r.Failure? ==> r.error == StatusRecordMissing)
      && (r.Success? ==> r.value == ScoredMatch(old(db.matches), req))
    ensures r.Success? ==> r.value.completed && r.value.player1Score.value >= 0 && r.value.player2Score.value >= 0
    ensures NoSelfMatches(old(db.matches)) ==> NoSelfMatches(db.matches)
    ensures TournamentService.FirstSemiFinalsApart(old(db.matches)) ==> TournamentService.FirstSemiFinalsApart(db.matches)
    ensures old(db.Consistent()) ==> db.Consistent()
  {
    var e := RequestError(req);
    if e.Some? {
      return Failure(e.value);
    }
    var updated := MatchService.UpdateMatchScore(db, Input(req));
    if updated.Failure? {
      return Failure(updated.error);
    }
    if TournamentService.FirstSemiFinalsApart(old(db.matches)) {
      TournamentService.ScoringKeepsSemiFinalsApart(old(db.matches), Target(old(db.matches), req),
                                                    req.player1Score.value, req.player2Score.value);
    }
    var closed := TournamentService.CheckAndCompleteGroupPhase(db);
    if closed.Failure? {
      return Failure(closed.error);
    }
    var crowned := TournamentService.CompleteKnockoutPhase(db);
    r := Success(updated.value);
  }

  /** Scoring the last open GROUP match closes the group phase: the status
      row then reads groupCompleted and KNOCKOUT. */
  lemma LastGroupMatchClosesGroupPhase(ms: seq<Match>, req: ScoreRequest, s: Option<TournamentStatus>)
    requires Accepted(ms, req) && s.Some?
    requires forall t :: 0 <= t < |ms| && t != Target(ms, req) && ms[t].phase == GROUP ==> ms[t].completed
    ensures var after := StatusAfterChecks(Rescored(ms, req), s);
      after.Some? && after.value.groupCompleted && after.value.currentPhase == KNOCKOUT
  {
    var ms' := Rescored(ms, req);
    var k := Target(ms, req);
    TournamentService.GroupPhaseOverMeans(ms');
    forall m | m in ms' && m.phase == GROUP ensures m.completed {
      var t :| 0 <= t < |ms'| && ms'[t] == m;
      if t != k {
        assert ms'[t] == ms[t];
      }
    }
  }

  /** While another GROUP match is still open, a score leaves the phase
      fields of the status row as they were. */
  lemma OpenGroupMatchKeepsPhase(ms: seq<Match>, req: ScoreRequest, s: Option<TournamentStatus>)
    requires Accepted(ms, req) && s.Some?
    requires exists t :: 0 <= t < |ms| && t != Target(ms, req) && ms[t].phase == GROUP && !ms[t].completed
    ensures var after := StatusAfterChecks(Rescored(ms, req), s);
      && after.Some?
      && after.value.groupCompleted == s.value.groupCompleted
      && after.value.currentPhase == s.value.currentPhase
  {
    var ms' := Rescored(ms, req);
    var t :| 0 <= t < |ms| && t != Target(ms, req) && ms[t].phase == GROUP && !ms[t].completed;
    assert ms'[t] == ms[t];
    TournamentService.GroupPhaseOverMeans(ms');
  }

  /** Scoring the first completed FINAL, while no champion is set, names
      its winner champion. */
  lemma FinalScoreCrownsWinner(ms: seq<Match>, req: ScoreRequest, s: Option<TournamentStatus>)
    requires Accepted(ms, req) && s.Some? && s.value.championId.None?
    requires ms[Target(ms, req)].phase == KNOCKOUT && ms[Target(ms, req)].round == Some(FINAL)
    requires forall t :: 0 <= t < Target(ms, req) ==> !MatchService.IsCompletedFinal(ms[t])
    ensures var after := StatusAfterChecks(Rescored(ms, req), s);
      after.Some? && after.value.championId == ScoredMatch(ms, req).winnerId
  {
    var ms' := Rescored(ms, req);
    var k := Target(ms, req);
    var j := Tables.FirstIndex(ms', MatchService.IsCompletedFinal);
    assert MatchService.IsCompletedFinal(ms'[k]);
    assert forall t :: 0 <= t < k ==> ms'[t] == ms[t];
    assert j == k;
  }
}
