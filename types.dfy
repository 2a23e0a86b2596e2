/** The record shapes of the tournament: phases, rounds, players, matches,
    the singleton status record, and the request and response types of the
    services (src/types/index.ts). */
module Types {

  datatype Option<+T> = None | Some(value: T)

  /** Record identities. The store assigns them; see FreshId. */
  type Id = string

  datatype Phase = GROUP | KNOCKOUT
  datatype Round = SEMI_FINAL | FINAL

  datatype Player = Player(
    id: Id,
    name: string,
    points: nat,
    matchesPlayed: nat,
    wins: nat,
    losses: nat)

  datatype Match = Match(
    id: Id,
    player1Id: Id,
    player2Id: Id,
    player1Score: Option<int>,
    player2Score: Option<int>,
    winnerId: Option<Id>,
    phase: Phase,
    round: Option<Round>,
    completed: bool)

  datatype TournamentStatus = TournamentStatus(
    id: Id,
    currentPhase: Phase,
    groupCompleted: bool,
    knockoutCreated: bool,
    championId: Option<Id>)

  datatype TournamentStatusWithChampion = TournamentStatusWithChampion(
    status: TournamentStatus,
    champion: Option<Player>)

  datatype CreateMatchInput = CreateMatchInput(
    player1Id: Id,
    player2Id: Id,
    phase: Phase,
    round: Option<Round>)

  datatype UpdateMatchScoreInput = UpdateMatchScoreInput(
    id: Id,
    player1Score: int,
    player2Score: int)

  datatype CreatePlayerInput = CreatePlayerInput(name: string)

  datatype GenerateSemiFinalMatchesResponse = GenerateSemiFinalMatchesResponse(
    success: bool,
    matches: Option<seq<Match>>,
    message: Option<string>)

  datatype GenerateFinalMatchResponse = GenerateFinalMatchResponse(
    success: bool,
    finalMatch: Option<Match>,  // the `match` field of the response
    message: Option<string>)

  /** The failures the services throw and the routes report. */
  datatype Error =
    | PlayerNotFound(playerId: Id)
    | MatchNotFound(matchId: Id)
    | MatchAlreadyCompleted
    | EqualScores
    | NegativeScore
    | DuplicateGroupMatch
    | ForeignKeyViolation
    | InvalidEnumValue
    | NotEnoughPlayersForGroup
    | GroupMatchesAlreadyGenerated
    | StatusRecordMissing
    | MissingFields
    | SelfMatch

  datatype Result<+T> = Success(value: T) | Failure(error: Error)

  const SINGLETON: Id := "singleton"

  /** The status record that initialization and reset write. */
  const DefaultStatus: TournamentStatus :=
    TournamentStatus(SINGLETON, GROUP, false, false, None)

  /** The store gives the k-th record it creates the id made of k + 1 copies
      of 'c'. Only two facts about ids matter to the model: they are never
      empty, and a later one is longer than every earlier one. */
  function FreshId(k: nat): (id: Id)
    ensures |id| == k + 1
  {
    seq(k + 1, _ => 'c')
  }

  /** JavaScript truthiness of an optional string field: absent and "" are false. */
  predicate Present(s: Option<string>) {
    s.Some? && s.value != ""
  }
}
