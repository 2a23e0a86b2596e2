/** The match collection endpoint (src/app/api/matches/route.ts): GET picks
    one of the match queries by its search parameters, POST validates a new
    match and hands it to createMatch. */
module MatchesRoute {
  import opened Types
  import opened Database
  import MatchService

  // ---- GET ------------------------------------------------------------------

  /** The search parameters id, phase, status and type; an absent one is None. */
  datatype Query = Query(id: Option<string>, phase: Option<string>, status: Option<string>, matchType: Option<string>)

  /** The JSON a successful GET answers with: a list, one match, or null. */
  datatype Body = List(matches: seq<Match>) | One(m: Match) | Null

  /** The phase a string names, if it names one. The database refuses any
      other string as a value of the phase column. */
  function PhaseNamed(s: string): Option<Phase> {
    if s == "GROUP" then Some(GROUP) else if s == "KNOCKOUT" then Some(KNOCKOUT) else None
  }

  /** GET /api/matches, branch by branch as written: the id first, then
      KNOCKOUT with type semifinals or final, then any phase, then GROUP
      with a status, and otherwise every match. */
  function Get(ms: seq<Match>, q: Query): (r: Result<Body>)
    ensures r.Success? && r.value.List? ==> multiset(r.value.matches) <= multiset(ms)
    ensures r.Success? && r.value.One? ==> r.value.m in ms
    ensures r.Failure? ==> r.error == InvalidEnumValue || (Present(q.id) && r.error == MatchNotFound(q.id.value))
  {
    if Present(q.id) then
      var m := MatchService.GetMatchById(ms, q.id.value);
      if m.Some? then Success(One(m.value)) else Failure(MatchNotFound(q.id.value))
    else if q.phase == Some("KNOCKOUT") && q.matchType == Some("semifinals") then
      Success(List(MatchService.GetSemiFinalsMatches(ms)))
    else if q.phase == Some("KNOCKOUT") && q.matchType == Some("final") then
      var f := MatchService.GetFinalMatch(ms);
      if f.Some? then Success(One(f.value)) else Success(Null)
    else if Present(q.phase) then
      var p := PhaseNamed(q.phase.value);
      if p.Some? then Success(List(MatchService.GetMatchesByPhase(ms, p.value))) else Failure(InvalidEnumValue)
    else if q.phase == Some("GROUP") && Present(q.status) then
      // never taken: a phase of "GROUP" is present, so the branch above answered
      if q.status == Some("completed") then Success(List(MatchService.GetCompletedGroupMatches(ms)))
      else if q.status == Some("incomplete") then Success(List(MatchService.GetIncompleteGroupMatches(ms)))
      else Success(List(MatchService.GetAllMatches(ms)))
    else
      Success(List(MatchService.GetAllMatches(ms)))
  }

  /** An id parameter takes precedence: that match, or not found. */
  lemma GetById(ms: seq<Match>, q: Query)
    requires Present(q.id)
    ensures var r := Get(ms, q);
      && (r.Success? <==> exists m :: m in ms && m.id == q.id.value)
      && (r.Success? ==> r.value.One? && r.value.m.id == q.id.value)
      && (r.Failure? ==> r.error == MatchNotFound(q.id.value))
  {
  }

  /** `phase=KNOCKOUT&type=semifinals` lists exactly the semi-finals. */
  lemma GetSemiFinals(ms: seq<Match>, q: Query)
    requires !Present(q.id) && q.phase == Some("KNOCKOUT") && q.matchType == Some("semifinals")
    ensures var r := Get(ms, q);
      && r.Success? && r.value.List?
      && forall m :: m in r.value.matches <==> m in ms && MatchService.IsSemiFinal(m)
  {
  }

  /** `phase=KNOCKOUT&type=final` answers the final, or null when there is none. */
  lemma GetFinal(ms: seq<Match>, q: Query)
    requires !Present(q.id) && q.phase == Some("KNOCKOUT") && q.matchType == Some("final")
    ensures var r := Get(ms, q);
      && r.Success? && (r.value.One? || r.value.Null?)
      && (r.value.Null? <==> forall m :: m in ms ==> !MatchService.IsFinal(m))
      && (r.value.One? ==> MatchService.IsFinal(r.value.m))
  {
  }

  /** Any other known phase lists exactly the matches of that phase,
      unplayed ones first; for GROUP this is so whatever the status says. */
  lemma GetByPhase(ms: seq<Match>, q: Query, p: Phase)
    requires !Present(q.id) && q.phase == Some(if p == GROUP then "GROUP" else "KNOCKOUT")
    requires p == KNOCKOUT ==> q.matchType != Some("semifinals") && q.matchType != Some("final")
    ensures var r := Get(ms, q);
      && r.Success? && r.value.List?
      && (forall m :: m in r.value.matches <==> m in ms && m.phase == p)
      && forall i, j :: 0 <= i < j < |r.value.matches| && r.value.matches[i].completed ==>
           r.value.matches[j].completed
  {
  }

  /** The query fails exactly when, without an id, it names a phase the
      database does not know. */
  lemma GetFails(ms: seq<Match>, q: Query)
    ensures Get(ms, q).Failure? <==>
      || (Present(q.id) && forall m :: m in ms ==> m.id != q.id.value)
      || (!Present(q.id) && Present(q.phase) && q.phase != Some("GROUP") && q.phase != Some("KNOCKOUT"))
  {
    if Present(q.id) {
      GetById(ms, q);
    } else if Present(q.phase) {
      assert PhaseNamed(q.phase.value).None? <==> q.phase != Some("GROUP") && q.phase != Some("KNOCKOUT");
    }
  }

  /** Without an id or a phase, GET lists every match, unplayed ones first. */
  lemma GetDefault(ms: seq<Match>, q: Query)
    requires !Present(q.id) && !Present(q.phase)
    ensures var r := Get(ms, q);
      && r.Success? && r.value.List? && multiset(r.value.matches) == multiset(ms)
      && forall i, j :: 0 <= i < j < |r.value.matches| && r.value.matches[i].completed ==>
           r.value.matches[j].completed
  {
  }

  /** The status parameter never changes what GET answers. */
  lemma StatusIgnored(ms: seq<Match>, q: Query)
    ensures Get(ms, q) == Get(ms, q.(status := None))
  {
  }

  /** An unplayed GROUP match, alone in the table, is listed by
      `?phase=GROUP&status=completed`, although it is not completed. */
  lemma CompletedQueryListsPending(m: Match)
    requires m.phase == GROUP && !m.completed
    ensures var r := Get([m], Query(None, Some("GROUP"), Some("completed"), None));
      && r.Success? && r.value.List? && m in r.value.matches
      && m !in MatchService.GetCompletedGroupMatches([m])
  {
  }

  /** GET with the status filter the route evidently means to offer:
      `phase=GROUP` with `status=completed` or `status=incomplete` lists the
      completed or the unplayed GROUP matches; every other query is answered
      as before. */
  function GetIntended(ms: seq<Match>, q: Query): (r: Result<Body>)
    ensures !Present(q.id) && q.phase == Some("GROUP") && q.status == Some("completed") ==>
      && r.Success? && r.value.List?
      && forall m :: m in r.value.matches <==> m in ms && m.phase == GROUP && m.completed
    ensures !Present(q.id) && q.phase == Some("GROUP") && q.status == Some("incomplete") ==>
      && r.Success? && r.value.List?
      && forall m :: m in r.value.matches <==> m in ms && m.phase == GROUP && !m.completed
  {
    if !Present(q.id) && q.phase == Some("GROUP") && q.status == Some("completed") then
      Success(List(MatchService.GetCompletedGroupMatches(ms)))
    else if !Present(q.id) && q.phase == Some("GROUP") && q.status == Some("incomplete") then
      Success(List(MatchService.GetIncompleteGroupMatches(ms)))
    else
      Get(ms, q)
  }

  /** The intended GET never lists a pending match for `status=completed`,
      nor a completed one for `status=incomplete`. */
  lemma IntendedStatusFilters(ms: seq<Match>, m: Match)
    requires m in ms && m.phase == GROUP
    ensures var done := GetIntended(ms, Query(None, Some("GROUP"), Some("completed"), None));
      m in done.value.matches <==> m.completed
    ensures var open := GetIntended(ms, Query(None, Some("GROUP"), Some("incomplete"), None));
      m in open.value.matches <==> !m.completed
  {
  }

  // ---- POST -----------------------------------------------------------------

  /** The JSON body of a new match; a field the client left out is None. */
  datatype CreateRequest = CreateRequest(player1Id: Option<Id>, player2Id: Option<Id>,
                                         phase: Option<string>, round: Option<string>)

  /** Why the route or the database refuses the body before createMatch
      looks at the match table, if it does: a missing player id or phase,
      the same player twice, then a phase the database does not know. */
  function RequestError(req: CreateRequest): (e: Option<Error>)
    ensures e == Some(MissingFields) <==>
      !Present(req.player1Id) || !Present(req.player2Id) || !Present(req.phase)
    ensures e == Some(SelfMatch) <==>
      Present(req.player1Id) && Present(req.player2Id) && Present(req.phase) &&
      req.player1Id.value == req.player2Id.value
    ensures e.None? <==>
      Present(req.player1Id) && Present(req.player2Id) && Present(req.phase) &&
      req.player1Id.value != req.player2Id.value && PhaseNamed(req.phase.value).Some?
    ensures e.Some? ==> e.value == MissingFields || e.value == SelfMatch || e.value == InvalidEnumValue
  {
    if !Present(req.player1Id) || !Present(req.player2Id) || !Present(req.phase) then Some(MissingFields)
    else if req.player1Id.value == req.player2Id.value then Some(SelfMatch)
    else if PhaseNamed(req.phase.value).None? then Some(InvalidEnumValue)
    else None
  }

  /** The round column takes null, SEMI_FINAL or FINAL. */
  predicate RoundKnown(s: Option<string>) {
    s.None? || s == Some("SEMI_FINAL") || s == Some("FINAL")
  }

  function RoundNamed(s: Option<string>): Option<Round>
    requires RoundKnown(s)
  {
    if s == Some("SEMI_FINAL") then Some(SEMI_FINAL) else if s == Some("FINAL") then Some(FINAL) else None
  }

  function PhaseOf(req: CreateRequest): Phase
    requires RequestError(req).None?
  {
    PhaseNamed(req.phase.value).value
  }

  /** The typed createMatch input a well-formed body stands for. */
  function Input(req: CreateRequest): (data: CreateMatchInput)
    requires RequestError(req).None? && RoundKnown(req.round)
    ensures data.player1Id != data.player2Id
  {
    CreateMatchInput(req.player1Id.value, req.player2Id.value, PhaseOf(req), RoundNamed(req.round))
  }

  /** Why POST fails, if it does. createMatch's duplicate-pair check reads
      the table before the database sees the round column, so a repeated
      GROUP pairing is reported even when the round is not a known value. */
  function PostError(ps: seq<Player>, ms: seq<Match>, req: CreateRequest): (e: Option<Error>)
    ensures RequestError(req).Some? ==> e == RequestError(req)
    ensures e.None? <==>
      RequestError(req).None? && RoundKnown(req.round) && MatchService.CreateMatchError(ps, ms, Input(req)).None?
    ensures RequestError(req).None? && PhaseOf(req) == GROUP &&
            MatchService.GroupPairTaken(ms, req.player1Id.value, req.player2Id.value) ==>
      e == Some(DuplicateGroupMatch)
  {
    if RequestError(req).Some? then RequestError(req)
    else if PhaseOf(req) == GROUP && MatchService.GroupPairTaken(ms, req.player1Id.value, req.player2Id.value) then
      Some(DuplicateGroupMatch)
    else if !RoundKnown(req.round) then Some(InvalidEnumValue)
    else MatchService.CreateMatchError(ps, ms, Input(req))
  }

  /** POST /api/matches: a refused body creates nothing; an accepted one
      appends exactly the match createMatch makes of it. */
  method Post(db: Store, req: CreateRequest) returns (r: Result<Match>)
    requires db.Valid()
    modifies db
    ensures db.Valid()
    ensures db.players == old(db.players) && db.status == old(db.status)
    ensures var e := PostError(old(db.players), old(db.matches), req);
      && (r.Failure? <==> e.Some?)
      && (r.Failure? ==> r.error == e.value && db.matches == old(db.matches) && db.nextId == old(db.nextId))
    ensures r.Success? ==>
      && r.value == MatchService.NewMatch(FreshId(old(db.nextId)), Input(req))
      && r.value.player1Id != r.value.player2Id
      && db.matches == old(db.matches) + [r.value]
      && db.nextId == old(db.nextId) + 1
    ensures MatchService.GroupPairsUnique(old(db.matches)) ==> MatchService.GroupPairsUnique(db.matches)
    ensures NoSelfMatches(old(db.matches)) ==> NoSelfMatches(db.matches)
    ensures old(db.Consistent()) ==> db.Consistent()
  {
    var e := RequestError(req);
    if e.Some? {
      return Failure(e.value);
    }
    if !RoundKnown(req.round) {
      if PhaseOf(req) == GROUP && MatchService.GroupPairTaken(db.matches, req.player1Id.value, req.player2Id.value) {
        return Failure(DuplicateGroupMatch);
      }
      return Failure(InvalidEnumValue);
    }
    ghost var ps, ms := db.players, db.matches;
    r := MatchService.CreateMatch(db, Input(req));
    if r.Success? && MatchService.GroupPairsUnique(ms) {
      MatchService.CreateKeepsGroupPairsUnique(ps, ms, Input(req), r.value.id);
    }
  }
}
