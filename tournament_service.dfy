/** The progression engine (src/lib/services/tournament-service.ts): the
    singleton status record, round-robin generation, the group-completion
    transition, the semi-finals from the top four, the final from the
    semi-final winners, champion assignment and reset. */
module TournamentService {
  import opened Types
  import opened Tables
  import opened Standings
  import opened Database
  import opened RoundRobin
  import PlayerService
  import MatchService

  const GroupNotCompletedMessage := "Group phase is not completed yet"
  const SemiFinalsExistMessage := "Semi-final matches have already been generated"
  const NotEnoughForSemiFinalsMessage := "Not enough players to generate semi-finals"
  const SemiFinalsPendingMessage := "Both semi-finals must be completed before generating the final"
  const FinalExistsMessage := "Final match has already been generated"

  // ---- the status record ----------------------------------------------------

  /** The status row as it is once initializeTournamentStatus has run. */
  function StatusOrDefault(s: Option<TournamentStatus>): TournamentStatus {
    if s.Some? then s.value else DefaultStatus
  }

  /** initializeTournamentStatus: creates the default row if there is none,
      and otherwise leaves the existing one as it is. */
  method InitializeTournamentStatus(db: Store)
    requires db.Valid()
    modifies db
    ensures db.Valid()
    ensures db.players == old(db.players) && db.matches == old(db.matches) && db.nextId == old(db.nextId)
    ensures db.status == Some(StatusOrDefault(old(db.status)))
    ensures old(db.status).Some? ==> db.status == old(db.status)
    ensures old(db.Consistent()) ==> db.Consistent()
  {
    if db.status.None? {
      db.status := Some(DefaultStatus);
    }
  }

  /** The player record a champion id refers to, if any. */
  function ChampionRecord(ps: seq<Player>, s: TournamentStatus): Option<Player> {
    if s.championId.Some? then PlayerService.GetPlayerById(ps, s.championId.value) else None
  }

  /** In a valid, consistent store a champion id always names a registered
      player, who won a completed final. */
  lemma ChampionIsRegistered(ps: seq<Player>, ms: seq<Match>, s: TournamentStatus, nextId: nat)
    requires ValidTables(ps, ms, Some(s), nextId) && ConsistentTables(ps, ms, Some(s))
    requires s.championId.Some?
    ensures var c := ChampionRecord(ps, s);
      c.Some? && c.value.id == s.championId.value &&
      exists m :: m in ms && IsWonFinal(m, c.value.id)
  {
    var i :| 0 <= i < |ms| && IsWonFinal(ms[i], s.championId.value);
    assert ms[i] in ms;
  }

  /** getTournamentStatus: the status row (created on first use) and the
      champion's record. */
  method GetTournamentStatus(db: Store) returns (r: TournamentStatusWithChampion)
    requires db.Valid()
    modifies db
    ensures db.Valid()
    ensures db.players == old(db.players) && db.matches == old(db.matches) && db.nextId == old(db.nextId)
    ensures r.status == StatusOrDefault(old(db.status)) && db.status == Some(r.status)
    ensures r.champion == ChampionRecord(db.players, r.status)
    ensures old(db.Consistent()) ==> db.Consistent()
    ensures old(db.Consistent()) && r.status.championId.Some? ==>
      r.champion.Some? && r.champion.value.id == r.status.championId.value
  {
    InitializeTournamentStatus(db);
    // The 'Failed to get tournament status' error cannot be raised: the row has just been ensured.
    assert db.status.Some?;
    var status := db.status.value;
    if old(db.Consistent()) && status.championId.Some? {
      ChampionIsRegistered(db.players, db.matches, status, db.nextId);
    }
    r := TournamentStatusWithChampion(status, ChampionRecord(db.players, status));
  }

  // ---- generateAllGroupMatches ----------------------------------------------

  /** The createMatch input for the pair of positions `p` of the listing. */
  function GroupInput(ps: seq<Player>, p: Pair): CreateMatchInput
    requires p.first < |ps| && p.second < |ps|
  {
    CreateMatchInput(ps[p.first].id, ps[p.second].id, GROUP, None)
  }

  /** The match createMatch inserts at step t of the nested loop over the
      listing `ps`: the t-th scheduled pair, with the t-th fresh id counted
      from `base`. */
  function Fixture(ps: seq<Player>, base: nat, t: nat): Match
    requires t < |Schedule(|ps|)|
  {
    ScheduleBounds(|ps|, t);
    MatchService.NewMatch(FreshId(base + t), GroupInput(ps, Schedule(|ps|)[t]))
  }

  /** The matches generateAllGroupMatches creates for the listing `ps`. */
  function GroupFixtures(ps: seq<Player>, base: nat): (r: seq<Match>)
    ensures |r| == |Schedule(|ps|)|
  {
    seq(|Schedule(|ps|)|, t requires 0 <= t < |Schedule(|ps|)| => Fixture(ps, base, t))
  }

  /** The t-th group fixture joins the players at the t-th scheduled pair of
      positions, with the t-th fresh id. */
  lemma GroupFixtureAt(ps: seq<Player>, base: nat, t: nat)
    requires t < |Schedule(|ps|)|
    ensures Schedule(|ps|)[t].first < Schedule(|ps|)[t].second < |ps|
    ensures GroupFixtures(ps, base)[t] ==
            MatchService.NewMatch(FreshId(base + t), GroupInput(ps, Schedule(|ps|)[t]))
  {
    ScheduleBounds(|ps|, t);
  }

  /** The group fixtures: n(n-1)/2 unplayed GROUP matches with no round. */
  lemma GroupFixturesShape(ps: seq<Player>, base: nat)
    ensures var f := GroupFixtures(ps, base);
      && 2 * |f| == |ps| * (|ps| - 1)
      && forall t :: 0 <= t < |f| ==>
           && f[t].phase == GROUP && f[t].round.None? && !f[t].completed
           && f[t].player1Score.None? && f[t].player2Score.None? && f[t].winnerId.None?
  {
    PairsBeforeLength(|ps|, |ps|);
    var f := GroupFixtures(ps, base);
    forall t | 0 <= t < |f|
      ensures && f[t].phase == GROUP && f[t].round.None? && !f[t].completed
              && f[t].player1Score.None? && f[t].player2Score.None? && f[t].winnerId.None?
    {
      GroupFixtureAt(ps, base, t);
    }
  }

  /** For every two positions a < b of the listing, some fixture joins the
      player at a (first slot) with the player at b (second slot). */
  lemma GroupFixturesCover(ps: seq<Player>, base: nat)
    ensures forall a, b :: 0 <= a < b < |ps| ==> FixtureJoins(GroupFixtures(ps, base), ps[a].id, ps[b].id)
  {
    var n := |ps|;
    forall a, b | 0 <= a < b < n ensures FixtureJoins(GroupFixtures(ps, base), ps[a].id, ps[b].id) {
      ScheduleAt(n, a, b);
      var t := RowStart(n, a) + (b - a - 1);
      GroupFixtureAt(ps, base, t);
      assert GroupFixtures(ps, base)[t].player1Id == ps[a].id && GroupFixtures(ps, base)[t].player2Id == ps[b].id;
    }
  }

  /** Some match of `f` has `x` in its first slot and `y` in its second. */
  ghost predicate FixtureJoins(f: seq<Match>, x: Id, y: Id) {
    exists t :: 0 <= t < |f| && f[t].player1Id == x && f[t].player2Id == y
  }

  /** No two fixtures join the same two players, in either order. */
  lemma GroupFixturesDistinct(ps: seq<Player>, base: nat)
    requires DistinctIds(ps)
    ensures var f := GroupFixtures(ps, base);
      forall s, t :: 0 <= s < t < |f| ==> !MatchService.JoinsInGroup(f[t], f[s].player1Id, f[s].player2Id)
  {
    var n := |ps|;
    PairsBeforeMembers(n, n);
    PairsBeforeOrdered(n, n);
    var sched := Schedule(n);
    var f := GroupFixtures(ps, base);
    forall s, t | 0 <= s < t < |f| ensures !MatchService.JoinsInGroup(f[t], f[s].player1Id, f[s].player2Id) {
      var p, q := sched[s], sched[t];
      assert p in sched && q in sched;
      assert Before(p, q);
      GroupFixtureAt(ps, base, s);
      GroupFixtureAt(ps, base, t);
    }
  }

  /** With distinct ids in the listing, every group fixture joins two
      different players. */
  lemma GroupFixturesNoSelf(ps: seq<Player>, base: nat)
    requires DistinctIds(ps)
    ensures NoSelfMatches(GroupFixtures(ps, base))
  {
    var f := GroupFixtures(ps, base);
    forall m | m in f ensures m.player1Id != m.player2Id {
      var t :| 0 <= t < |f| && f[t] == m;
      GroupFixtureAt(ps, base, t);
    }
  }

  lemma AppendAssoc(a: seq<Match>, b: seq<Match>, c: seq<Match>)
    ensures (a + b) + c == a + (b + c)
  {
  }

  lemma AppendCancel(a: seq<Match>, x: seq<Match>, y: seq<Match>)
    requires a + x == a + y
    ensures x == y
  {
    assert x == (a + x)[|a|..];
    assert y == (a + y)[|a|..];
  }

  /** After k steps of the nested loop, the match table is the one the loop
      started from followed by the first k group fixtures, and the id
      counter has moved on by k. */
  ghost predicate Filled(ps: seq<Player>, ms: seq<Match>, nextId: nat, ms0: seq<Match>, base: nat, k: nat) {
    && k <= |Schedule(|ps|)|
    && ms == ms0 + GroupFixtures(ps, base)[..k]
    && nextId == base + k
  }

  /** When the loop visits (i, j), createMatch accepts the pair: no earlier
      fixture joins the two players, and both are registered. */
  lemma RowStepAllowed(ps: seq<Player>, ms0: seq<Match>, base: nat, i: nat, j: nat, k: nat)
    requires DistinctPlayerIds(ps) && i < j < |ps| && k == RowStart(|ps|, i) + (j - i - 1)
    requires forall m :: m in ms0 ==> m.phase != GROUP
    ensures k < |Schedule(|ps|)|
    ensures MatchService.CreateMatchError(ps, ms0 + GroupFixtures(ps, base)[..k], GroupInput(ps, Pair(i, j))).None?
  {
    var n := |ps|;
    ScheduleAt(n, i, j);
    var f := GroupFixtures(ps, base)[..k];
    forall m | m in ms0 + f ensures !MatchService.JoinsInGroup(m, ps[i].id, ps[j].id) {
      if m !in ms0 {
        var t :| 0 <= t < k && f[t] == m;
        EarlierFixtureDiffers(ps, base, i, j, k, t);
      }
    }
    assert PlayerIds(ps)[i] == ps[i].id && PlayerIds(ps)[j] == ps[j].id;
  }

  /** A fixture created before the loop visits (i, j) does not join the
      players at i and j. */
  lemma EarlierFixtureDiffers(ps: seq<Player>, base: nat, i: nat, j: nat, k: nat, t: nat)
    requires DistinctPlayerIds(ps) && i < j < |ps| && k == RowStart(|ps|, i) + (j - i - 1) && t < k
    ensures k < |Schedule(|ps|)|
    ensures !MatchService.JoinsInGroup(GroupFixtures(ps, base)[t], ps[i].id, ps[j].id)
  {
    var n := |ps|;
    ScheduleAt(n, i, j);
    ScheduleEarlier(n, t, k);
    GroupFixtureAt(ps, base, t);
    EarlierPairDiffers(ps, Schedule(n)[t], i, j);
  }

  /** A pair of positions the loop visits before (i, j) joins two players
      other than those at i and j, in either order. */
  lemma EarlierPairDiffers(ps: seq<Player>, p: Pair, i: nat, j: nat)
    requires DistinctPlayerIds(ps) && p.first < p.second < |ps| && i < j < |ps|
    requires Before(p, Pair(i, j))
    ensures !MatchService.JoinsInGroup(MatchService.NewMatch(FreshId(0), GroupInput(ps, p)), ps[i].id, ps[j].id)
  {
    var a, b := p.first, p.second;
    if a < i {
      IdsDiffer(ps, a, i);
      IdsDiffer(ps, a, j);
    } else {
      IdsDiffer(ps, b, j);
      IdsDiffer(ps, i, j);
    }
  }

  /** Two positions of a listing with unique ids hold different ids. */
  lemma IdsDiffer(ps: seq<Player>, x: nat, y: nat)
    requires DistinctPlayerIds(ps) && x < |ps| && y < |ps| && x != y
    ensures ps[x].id != ps[y].id
  {
    if x < y {
      assert PlayerIdAt(ps, x) != PlayerIdAt(ps, y);
    } else {
      assert PlayerIdAt(ps, y) != PlayerIdAt(ps, x);
    }
  }

  /** The match createMatch inserts when the loop visits (i, j) is the next
      group fixture. */
  lemma RowStepRecorded(ps: seq<Player>, ms0: seq<Match>, base: nat, i: nat, j: nat, k: nat, m: Match)
    requires i < j < |ps| && k == RowStart(|ps|, i) + (j - i - 1)
    requires m == MatchService.NewMatch(FreshId(base + k), GroupInput(ps, Pair(i, j)))
    ensures k < |Schedule(|ps|)|
    ensures Filled(ps, ms0 + GroupFixtures(ps, base)[..k] + [m], base + k + 1, ms0, base, k + 1)
  {
    var n := |ps|;
    ScheduleAt(n, i, j);
    var f := GroupFixtures(ps, base);
    GroupFixtureAt(ps, base, k);
    assert f[..k + 1] == f[..k] + [m];
    AppendAssoc(ms0, f[..k], [m]);
  }

  /** generateAllGroupMatches: with at least two players and no GROUP match
      yet, creates one GROUP match for every pair of players i < j of the
      listing, in loop order (see GroupFixturesShape, GroupFixturesCover and
      GroupFixturesDistinct). */
  method GenerateAllGroupMatches(db: Store) returns (r: Result<seq<Match>>)
    requires db.Valid()
    modifies db
    ensures db.Valid()
    ensures db.players == old(db.players) && db.status == old(db.status)
    ensures |old(db.players)| < 2 ==>
      r == Failure(NotEnoughPlayersForGroup) && db.matches == old(db.matches) && db.nextId == old(db.nextId)
    ensures |old(db.players)| >= 2 && MatchService.GetAllGroupMatches(old(db.matches)) != [] ==>
      r == Failure(GroupMatchesAlreadyGenerated) && db.matches == old(db.matches) && db.nextId == old(db.nextId)
    ensures r.Success? <==> |old(db.players)| >= 2 && MatchService.GetAllGroupMatches(old(db.matches)) == []
    ensures r.Success? ==>
      && r.value == GroupFixtures(old(db.players), old(db.nextId))
      && db.matches == old(db.matches) + r.value
      && db.nextId == old(db.nextId) + |r.value|
    ensures NoSelfMatches(old(db.matches)) ==> NoSelfMatches(db.matches)
    ensures old(db.Consistent()) ==> db.Consistent()
  {
    var players := db.players;
    var n := |players|;
    if n < 2 {
      return Failure(NotEnoughPlayersForGroup);
    }
    var existing := MatchService.GetAllGroupMatches(db.matches);
    if |existing| > 0 {
      return Failure(GroupMatchesAlreadyGenerated);
    }
    assert forall m :: m in db.matches ==> m.phase != GROUP by {
      assert existing == [];
    }
    ghost var base := db.nextId;
    var created := InsertFixtures(db);
    r := Success(created);
    DistinctPlayerIdsMeans(players);
    GroupFixturesNoSelf(players, base);
  }

  /** The nested loop of generateAllGroupMatches, run once the checks have
      passed. */
  method InsertFixtures(db: Store) returns (created: seq<Match>)
    requires db.Valid()
    requires forall m :: m in db.matches ==> m.phase != GROUP
    modifies db
    ensures db.Valid()
    ensures db.players == old(db.players) && db.status == old(db.status)
    ensures created == GroupFixtures(db.players, old(db.nextId))
    ensures db.matches == old(db.matches) + created && db.nextId == old(db.nextId) + |created|
    ensures old(db.Consistent()) ==> db.Consistent()
  {
    var players := db.players;
    var n := |players|;
    ghost var ms0, base := db.matches, db.nextId;
    created := [];
    var i := 0;
    while i < n
      invariant 0 <= i <= n
      invariant db.Valid() && db.players == players && db.status == old(db.status)
      invariant Filled(players, db.matches, db.nextId, ms0, base, RowStart(n, i))
      invariant db.matches == ms0 + created
    {
      created := GenerateRow(db, players, i, ms0, base, created);
      i := i + 1;
    }
    RowStartIsLength(n, n);
    ghost var f := GroupFixtures(players, base);
    assert f[..|f|] == f;
    AppendCancel(ms0, created, f);
    if old(db.Consistent()) {
      GroupFixturesShape(players, base);
      AppendPendingRunKeepsConsistency(players, ms0, db.status, f);
    }
  }

  /** Appending any number of unplayed matches changes no standing and
      keeps the champion's final. */
  lemma {:induction false} AppendPendingRunKeepsConsistency(ps: seq<Player>, ms: seq<Match>,
                                                           status: Option<TournamentStatus>, extra: seq<Match>)
    requires forall t :: 0 <= t < |extra| ==> !extra[t].completed
    requires ConsistentTables(ps, ms, status)
    ensures ConsistentTables(ps, ms + extra, status)
  {
    if extra == [] {
      assert ms + extra == ms;
    } else {
      var init, last := extra[..|extra| - 1], extra[|extra| - 1];
      AppendPendingRunKeepsConsistency(ps, ms, status, init);
      MatchService.AppendPendingKeepsConsistency(ps, ms + init, status, last);
      assert extra == init + [last];
      AppendAssoc(ms, init, [last]);
    }
  }

  /** One pass of the inner loop: the matches of player i against every
      later player of the listing, added to those `created` so far. */
  method GenerateRow(db: Store, players: seq<Player>, i: nat, ghost ms0: seq<Match>, ghost base: nat,
                     created: seq<Match>)
      returns (created': seq<Match>)
    requires db.Valid() && db.players == players && i < |players|
    requires forall m :: m in ms0 ==> m.phase != GROUP
    requires Filled(players, db.matches, db.nextId, ms0, base, RowStart(|players|, i))
    requires db.matches == ms0 + created
    modifies db
    ensures db.Valid() && db.players == players && db.status == old(db.status)
    ensures Filled(players, db.matches, db.nextId, ms0, base, RowStart(|players|, i + 1))
    ensures db.matches == ms0 + created'
  {
    var n := |players|;
    ghost var start := RowStart(n, i);
    ghost var k := start;
    created' := created;
    var j := i + 1;
    while j < n
      invariant i + 1 <= j <= n && k == start + (j - i - 1)
      invariant db.Valid() && db.players == players && db.status == old(db.status)
      invariant Filled(players, db.matches, db.nextId, ms0, base, k)
      invariant db.matches == ms0 + created'
    {
      var m := VisitPair(db, players, i, j, ms0, base, k);
      AppendAssoc(ms0, created', [m]);
      created' := created' + [m];
      j := j + 1;
      k := k + 1;
    }
    assert RowStart(n, i + 1) == k;
  }

  /** The body of the inner loop: createMatch for the players at positions
      i and j, which always succeeds here. */
  method VisitPair(db: Store, players: seq<Player>, i: nat, j: nat, ghost ms0: seq<Match>, ghost base: nat,
                   ghost k: nat)
      returns (m: Match)
    requires db.Valid() && db.players == players && i < j < |players|
    requires forall m :: m in ms0 ==> m.phase != GROUP
    requires k == RowStart(|players|, i) + (j - i - 1)
    requires Filled(players, db.matches, db.nextId, ms0, base, k)
    modifies db
    ensures db.Valid() && db.players == players && db.status == old(db.status)
    ensures Filled(players, db.matches, db.nextId, ms0, base, k + 1)
    ensures db.matches == old(db.matches) + [m]
  {
    RowStepAllowed(players, ms0, base, i, j, k);
    var input := GroupInput(players, Pair(i, j));
    assert MatchService.CreateMatchError(db.players, db.matches, input).None?;
    var made := MatchService.CreateMatch(db, input);
    assert made.Success?;
    m := made.value;
    RowStepRecorded(players, ms0, base, i, j, k, m);
  }

  // ---- checkAndCompleteGroupPhase -------------------------------------------

  /** No GROUP match awaits a score. */
  predicate GroupPhaseOver(ms: seq<Match>) {
    MatchService.GetIncompleteGroupMatches(ms) == []
  }

  /** The status update of a completed group phase. */
  function CloseGroupPhase(s: TournamentStatus): (t: TournamentStatus)
    ensures t.groupCompleted && t.currentPhase == KNOCKOUT
    ensures t.id == s.id && t.knockoutCreated == s.knockoutCreated && t.championId == s.championId
  {
    s.(groupCompleted := true, currentPhase := KNOCKOUT)
  }

  /** The status row after checkAndCompleteGroupPhase, when it succeeds. */
  function AfterGroupCheck(ms: seq<Match>, s: Option<TournamentStatus>): (t: Option<TournamentStatus>)
    ensures t.Some? <==> s.Some?
    ensures !GroupPhaseOver(ms) ==> t == s
    ensures t.Some? ==>
      && t.value.id == s.value.id && t.value.championId == s.value.championId
      && t.value.knockoutCreated == s.value.knockoutCreated
    ensures GroupPhaseOver(ms) && s.Some? ==> t.value.groupCompleted && t.value.currentPhase == KNOCKOUT
  {
    if GroupPhaseOver(ms) && s.Some? then Some(CloseGroupPhase(s.value)) else s
  }

  /** GroupPhaseOver holds exactly when every GROUP match is completed. */
  lemma GroupPhaseOverMeans(ms: seq<Match>)
    ensures GroupPhaseOver(ms) <==> forall m :: m in ms && m.phase == GROUP ==> m.completed
  {
    var s := MatchService.GetIncompleteGroupMatches(ms);
    if s != [] {
      assert s[0] in s;
    }
  }

  /** Running the group check a second time on the same match table changes
      nothing more. */
  lemma GroupCheckIdempotent(ms: seq<Match>, s: Option<TournamentStatus>)
    ensures AfterGroupCheck(ms, AfterGroupCheck(ms, s)) == AfterGroupCheck(ms, s)
  {
  }

  /** checkAndCompleteGroupPhase: false while a GROUP match is unplayed;
      otherwise moves the tournament to the knockout phase, which fails when
      there is no status row to update. */
  method CheckAndCompleteGroupPhase(db: Store) returns (r: Result<bool>)
    requires db.Valid()
    modifies db
    ensures db.Valid()
    ensures db.players == old(db.players) && db.matches == old(db.matches) && db.nextId == old(db.nextId)
    ensures !GroupPhaseOver(old(db.matches)) ==> r == Success(false) && db.status == old(db.status)
    ensures GroupPhaseOver(old(db.matches)) && old(db.status).None? ==>
      r == Failure(StatusRecordMissing) && db.status == None
    ensures GroupPhaseOver(old(db.matches)) && old(db.status).Some? ==> r == Success(true)
    ensures db.status == AfterGroupCheck(old(db.matches), old(db.status))
    ensures old(db.Consistent()) ==> db.Consistent()
  {
    var incomplete := MatchService.GetIncompleteGroupMatches(db.matches);
    if |incomplete| > 0 {
      return Success(false);
    }
    if db.status.None? {
      return Failure(StatusRecordMissing);
    }
    db.status := Some(CloseGroupPhase(db.status.value));
    r := Success(true);
  }

  // ---- generateSemiFinalMatches ---------------------------------------------

  /** `order` is a permutation of the positions 0..3 (the outcome of the shuffle). */
  predicate IsShuffleOrder(order: seq<nat>) {
    multiset(order) == multiset{0, 1, 2, 3}
  }

  /** A shuffle order has four entries, each a position 0..3 and none repeated,
      and every position occurs in it. */
  lemma ShuffleOrderFacts(order: seq<nat>)
    requires IsShuffleOrder(order)
    ensures |order| == 4
    ensures forall k :: 0 <= k < |order| ==> order[k] < 4
    ensures forall a, b :: 0 <= a < b < |order| ==> order[a] != order[b]
    ensures forall i :: 0 <= i < 4 ==> i in order
  {
    assert |multiset(order)| == 4;
    forall k | 0 <= k < |order| ensures order[k] < 4 {
      assert order[k] in multiset(order);
    }
    forall a, b | 0 <= a < b < |order| ensures order[a] != order[b] {
      assert order == order[..b] + order[b..];
      assert order[a] in multiset(order[..b]) && order[b] in multiset(order[b..]);
      assert multiset(order)[order[b]] <= 1;
    }
    forall i | 0 <= i < 4 ensures i in order {
      assert i in multiset(order);
    }
  }

  function Shuffle(top: seq<Player>, order: seq<nat>): (s: seq<Player>)
    requires |top| == 4 && IsShuffleOrder(order)
    ensures |s| == 4
  {
    ShuffleOrderFacts(order);
    seq(4, k requires 0 <= k < 4 => top[order[k]])
  }

  /** The shuffle holds exactly the players it shuffles, each once. */
  lemma ShuffleKeepsPlayers(top: seq<Player>, order: seq<nat>)
    requires |top| == 4 && IsShuffleOrder(order) && DistinctIds(top)
    ensures forall x :: x in Shuffle(top, order) <==> x in top
    ensures DistinctIds(Shuffle(top, order))
  {
    ShuffleOrderFacts(order);
    var s := Shuffle(top, order);
    forall x | x in top ensures x in s {
      var i :| 0 <= i < 4 && top[i] == x;
      var k :| 0 <= k < 4 && order[k] == i;
      assert s[k] == x;
    }
    forall a, b | 0 <= a < b < 4 ensures s[a].id != s[b].id {
      assert s[a] == top[order[a]] && s[b] == top[order[b]];
      if order[a] < order[b] {
        assert top[order[a]].id != top[order[b]].id;
      } else {
        assert top[order[b]].id != top[order[a]].id;
      }
    }
  }

  /** The two semi-finals: positions 0 and 1, then 2 and 3, of the shuffle. */
  function SemiFinals(s: seq<Player>, base: nat): seq<Match>
    requires |s| == 4
  {
    [MatchService.NewMatch(FreshId(base), CreateMatchInput(s[0].id, s[1].id, KNOCKOUT, Some(SEMI_FINAL))),
     MatchService.NewMatch(FreshId(base + 1), CreateMatchInput(s[2].id, s[3].id, KNOCKOUT, Some(SEMI_FINAL)))]
  }

  /** Two matches have a player in common. */
  predicate SharePlayer(a: Match, b: Match) {
    a.player1Id == b.player1Id || a.player1Id == b.player2Id ||
    a.player2Id == b.player1Id || a.player2Id == b.player2Id
  }

  /** The first two semi-finals of the table, if there are two, join four
      different players. */
  predicate FirstSemiFinalsApart(ms: seq<Match>) {
    var semis := MatchService.GetSemiFinalsMatches(ms);
    |semis| >= 2 ==> !SharePlayer(semis[0], semis[1])
  }

  /** The two player columns of a list of matches. */
  function PlayerColumns(ms: seq<Match>): (r: seq<(Id, Id)>)
    ensures |r| == |ms| && forall i :: 0 <= i < |ms| ==> r[i] == (ms[i].player1Id, ms[i].player2Id)
  {
    seq(|ms|, i requires 0 <= i < |ms| => (ms[i].player1Id, ms[i].player2Id))
  }

  lemma PlayerColumnsAppend(a: seq<Match>, b: seq<Match>)
    ensures PlayerColumns(a + b) == PlayerColumns(a) + PlayerColumns(b)
  {
  }

  /** The player columns of the semi-final list, one row at a time. */
  lemma SemiFinalColumnsCons(ms: seq<Match>)
    requires ms != []
    ensures PlayerColumns(MatchService.GetSemiFinalsMatches(ms)) ==
      (if MatchService.IsSemiFinal(ms[0]) then [(ms[0].player1Id, ms[0].player2Id)] else []) +
      PlayerColumns(MatchService.GetSemiFinalsMatches(ms[1..]))
  {
    var t := MatchService.GetSemiFinalsMatches(ms[1..]);
    if MatchService.IsSemiFinal(ms[0]) {
      assert MatchService.GetSemiFinalsMatches(ms) == [ms[0]] + t;
      PlayerColumnsAppend([ms[0]], t);
      assert PlayerColumns([ms[0]]) == [(ms[0].player1Id, ms[0].player2Id)];
    } else {
      assert MatchService.GetSemiFinalsMatches(ms) == t;
      assert [] + PlayerColumns(t) == PlayerColumns(t);
    }
  }

  /** Rewriting one row with its player columns, phase and round kept
      leaves the player columns of the semi-final list as they were. */
  lemma {:induction false} SemiFinalColumnsKept(ms: seq<Match>, k: nat, m: Match)
    requires k < |ms|
    requires m.player1Id == ms[k].player1Id && m.player2Id == ms[k].player2Id
    requires m.phase == ms[k].phase && m.round == ms[k].round
    ensures PlayerColumns(MatchService.GetSemiFinalsMatches(ms[k := m])) ==
            PlayerColumns(MatchService.GetSemiFinalsMatches(ms))
  {
    var ms' := ms[k := m];
    SemiFinalColumnsCons(ms);
    SemiFinalColumnsCons(ms');
    if k == 0 {
      assert ms'[1..] == ms[1..];
    } else {
      assert ms'[1..] == ms[1..][k - 1 := m];
      assert ms[1..][k - 1] == ms[k];
      SemiFinalColumnsKept(ms[1..], k - 1, m);
    }
  }

  /** Scoring a match keeps the first two semi-finals apart. */
  lemma ScoringKeepsSemiFinalsApart(ms: seq<Match>, k: nat, s1: int, s2: int)
    requires k < |ms| && s1 != s2 && FirstSemiFinalsApart(ms)
    ensures FirstSemiFinalsApart(ms[k := MatchService.Scored(ms[k], s1, s2)])
  {
    var a := MatchService.GetSemiFinalsMatches(ms);
    var b := MatchService.GetSemiFinalsMatches(ms[k := MatchService.Scored(ms[k], s1, s2)]);
    SemiFinalColumnsKept(ms, k, MatchService.Scored(ms[k], s1, s2));
    assert |a| == |PlayerColumns(a)| == |PlayerColumns(b)| == |b|;
    if |b| >= 2 {
      assert PlayerColumns(a)[0] == PlayerColumns(b)[0] && PlayerColumns(a)[1] == PlayerColumns(b)[1];
    }
  }

  /** Semi-finals made from four distinct players each join two different
      players, and the two share no player. */
  lemma SemiFinalsApart(s: seq<Player>, base: nat)
    requires |s| == 4 && DistinctIds(s)
    ensures NoSelfMatches(SemiFinals(s, base))
    ensures !SharePlayer(SemiFinals(s, base)[0], SemiFinals(s, base)[1])
  {
    assert s[0].id != s[1].id && s[0].id != s[2].id && s[0].id != s[3].id;
    assert s[1].id != s[2].id && s[1].id != s[3].id && s[2].id != s[3].id;
  }

  /** Added to a table without semi-finals, the new semi-finals are the
      table's first two. */
  lemma FreshSemiFinalsFirst(ms: seq<Match>, s: seq<Player>, base: nat)
    requires |s| == 4 && DistinctIds(s)
    requires MatchService.GetSemiFinalsMatches(ms) == []
    ensures MatchService.GetSemiFinalsMatches(ms + SemiFinals(s, base)) == SemiFinals(s, base)
    ensures FirstSemiFinalsApart(ms + SemiFinals(s, base))
  {
    var f := SemiFinals(s, base);
    FilterAppend(ms, f, MatchService.IsSemiFinal);
    FilterAll(f, MatchService.IsSemiFinal);
    SemiFinalsApart(s, base);
  }

  /** The semi-finalists are four distinct registered players, the top four
      by points: nobody left out has more points than any of them. */
  lemma ShuffledTopFour(ps: seq<Player>, order: seq<nat>)
    requires DistinctIds(ps) && |ps| >= 4 && IsShuffleOrder(order)
    ensures var s := Shuffle(PlayerService.GetTopPlayers(ps, 4), order);
      && (forall k :: 0 <= k < 4 ==> s[k] in ps)
      && DistinctIds(s)
      && (forall q, p :: q in ps && q !in s && p in s ==> q.points <= p.points)
  {
    var top := PlayerService.GetTopPlayers(ps, 4);
    PlayerService.TopPlayersDistinct(ps, 4);
    ShuffleKeepsPlayers(top, order);
    forall x | x in top ensures x in ps {
      assert x in multiset(top);
    }
  }

  lemma RegisteredId(ps: seq<Player>, x: Player)
    requires x in ps
    ensures x.id in PlayerIds(ps)
  {
    var i :| 0 <= i < |ps| && ps[i] == x;
    assert PlayerIds(ps)[i] == x.id;
  }

  /** The semi-finals between distinct players keep the store consistent. */
  method CreateSemiFinals(db: Store, s: seq<Player>)
    requires db.Valid() && db.status.Some?
    requires |s| == 4 && (forall k :: 0 <= k < 4 ==> s[k] in db.players)
    modifies db
    ensures db.Valid()
    ensures db.players == old(db.players)
    ensures db.matches == old(db.matches) + SemiFinals(s, old(db.nextId)) && db.nextId == old(db.nextId) + 2
    ensures db.status == Some(old(db.status).value.(knockoutCreated := true))
    ensures old(db.Consistent()) ==> db.Consistent()
  {
    RegisteredId(db.players, s[0]);
    RegisteredId(db.players, s[1]);
    RegisteredId(db.players, s[2]);
    RegisteredId(db.players, s[3]);
    var match1 := MatchService.CreateMatch(db, CreateMatchInput(s[0].id, s[1].id, KNOCKOUT, Some(SEMI_FINAL)));
    assert match1.Success?;
    var match2 := MatchService.CreateMatch(db, CreateMatchInput(s[2].id, s[3].id, KNOCKOUT, Some(SEMI_FINAL)));
    assert match2.Success?;
    db.status := Some(db.status.value.(knockoutCreated := true));
  }

  /** generateSemiFinalMatches: after the group phase and before any
      knockout match, pairs the shuffled top four in two semi-finals. */
  method GenerateSemiFinalMatches(db: Store, order: seq<nat>) returns (resp: GenerateSemiFinalMatchesResponse)
    requires db.Valid() && IsShuffleOrder(order)
    modifies db
    ensures db.Valid()
    ensures db.players == old(db.players)
    ensures var st := StatusOrDefault(old(db.status));
      !st.groupCompleted ==>
        && resp == GenerateSemiFinalMatchesResponse(false, None, Some(GroupNotCompletedMessage))
        && db.matches == old(db.matches) && db.nextId == old(db.nextId) && db.status == Some(st)
    ensures var st := StatusOrDefault(old(db.status));
      st.groupCompleted && st.knockoutCreated ==>
        && resp == GenerateSemiFinalMatchesResponse(false, Some(MatchService.GetSemiFinalsMatches(old(db.matches))),
                                                    Some(SemiFinalsExistMessage))
        && db.matches == old(db.matches) && db.nextId == old(db.nextId) && db.status == Some(st)
    ensures var st := StatusOrDefault(old(db.status));
      st.groupCompleted && !st.knockoutCreated && |old(db.players)| < 4 ==>
        && resp == GenerateSemiFinalMatchesResponse(false, None, Some(NotEnoughForSemiFinalsMessage))
        && db.matches == old(db.matches) && db.nextId == old(db.nextId) && db.status == Some(st)
    ensures var st := StatusOrDefault(old(db.status));
      st.groupCompleted && !st.knockoutCreated && |old(db.players)| >= 4 ==>
        var s := Shuffle(PlayerService.GetTopPlayers(old(db.players), 4), order);
        && db.matches == old(db.matches) + SemiFinals(s, old(db.nextId))
        && db.nextId == old(db.nextId) + 2
        && db.status == Some(st.(knockoutCreated := true))
        && resp == GenerateSemiFinalMatchesResponse(true, Some(MatchService.GetSemiFinalsMatches(db.matches)), None)
    ensures NoSelfMatches(old(db.matches)) ==> NoSelfMatches(db.matches)
    ensures resp.success && MatchService.GetSemiFinalsMatches(old(db.matches)) == [] ==> FirstSemiFinalsApart(db.matches)
    ensures old(db.Consistent()) ==> db.Consistent()
  {
    var st := GetTournamentStatus(db);
    var status := st.status;
    if !status.groupCompleted {
      return GenerateSemiFinalMatchesResponse(false, None, Some(GroupNotCompletedMessage));
    }
    if status.knockoutCreated {
      var existing := MatchService.GetSemiFinalsMatches(db.matches);
      return GenerateSemiFinalMatchesResponse(false, Some(existing), Some(SemiFinalsExistMessage));
    }
    var top := PlayerService.GetTopPlayers(db.players, 4);
    if |top| < 4 {
      return GenerateSemiFinalMatchesResponse(false, None, Some(NotEnoughForSemiFinalsMessage));
    }
    var shuffled := Shuffle(top, order);
    DistinctPlayerIdsMeans(db.players);
    ShuffledTopFour(db.players, order);
    SemiFinalsApart(shuffled, db.nextId);
    if MatchService.GetSemiFinalsMatches(db.matches) == [] {
      FreshSemiFinalsFirst(db.matches, shuffled, db.nextId);
    }
    CreateSemiFinals(db, shuffled);
    var semiFinals := MatchService.GetSemiFinalsMatches(db.matches);
    resp := GenerateSemiFinalMatchesResponse(true, Some(semiFinals), None);
  }

  // ---- generateFinalMatch ---------------------------------------------------

  /** At least two semi-finals, all of them completed. */
  predicate SemiFinalsDone(semis: seq<Match>) {
    |semis| >= 2 && Filter(semis, Pending) == []
  }

  /** The record a completed match's winner id refers to, if any. */
  function WinnerRecord(ps: seq<Player>, m: Match): Option<Player> {
    if m.winnerId.Some? then PlayerService.GetPlayerById(ps, m.winnerId.value) else None
  }

  /** In a valid store each of the first two semi-finals, once both are
      completed, names a registered winner with a non-empty id. */
  lemma SemiFinalWinnerKnown(ps: seq<Player>, ms: seq<Match>, status: Option<TournamentStatus>, nextId: nat, k: nat)
    requires ValidTables(ps, ms, status, nextId)
    requires SemiFinalsDone(MatchService.GetSemiFinalsMatches(ms)) && k < 2
    ensures var m := MatchService.GetSemiFinalsMatches(ms)[k];
      && m.completed && m.winnerId.Some?
      && WinnerRecord(ps, m).Some? && WinnerRecord(ps, m).value.id == m.winnerId.value
      && WinnerRecord(ps, m).value.id != "" && WinnerRecord(ps, m).value.id in PlayerIds(ps)
  {
    var semis := MatchService.GetSemiFinalsMatches(ms);
    var m := semis[k];
    assert m in semis;
    assert m !in Filter(semis, Pending);
    RegisteredId(ps, WinnerRecord(ps, m).value);
  }

  /** Completed first semi-finals that share no player have different
      winners, so the final between them joins two different players. */
  lemma ApartSemiFinalsWinnersDiffer(ps: seq<Player>, ms: seq<Match>, status: Option<TournamentStatus>, nextId: nat)
    requires ValidTables(ps, ms, status, nextId)
    requires SemiFinalsDone(MatchService.GetSemiFinalsMatches(ms)) && FirstSemiFinalsApart(ms)
    ensures var semis := MatchService.GetSemiFinalsMatches(ms);
      semis[0].winnerId != semis[1].winnerId
  {
    var semis := MatchService.GetSemiFinalsMatches(ms);
    SemiFinalWinnerKnown(ps, ms, status, nextId, 0);
    SemiFinalWinnerKnown(ps, ms, status, nextId, 1);
    assert semis[0] in semis && semis[1] in semis;
    assert WellFormedMatch(semis[0]) && WellFormedMatch(semis[1]);
  }

  /** generateFinalMatch: once at least two semi-finals exist and all are
      completed, and no final exists yet, creates the final between the
      winners of the first two semi-finals. */
  method GenerateFinalMatch(db: Store) returns (resp: GenerateFinalMatchResponse)
    requires db.Valid()
    modifies db
    ensures db.Valid()
    ensures db.players == old(db.players) && db.status == old(db.status)
    ensures !SemiFinalsDone(MatchService.GetSemiFinalsMatches(old(db.matches))) ==>
      && resp == GenerateFinalMatchResponse(false, None, Some(SemiFinalsPendingMessage))
      && db.matches == old(db.matches) && db.nextId == old(db.nextId)
    ensures SemiFinalsDone(MatchService.GetSemiFinalsMatches(old(db.matches))) &&
            MatchService.GetFinalMatch(old(db.matches)).Some? ==>
      && resp == GenerateFinalMatchResponse(false, MatchService.GetFinalMatch(old(db.matches)), Some(FinalExistsMessage))
      && db.matches == old(db.matches) && db.nextId == old(db.nextId)
    ensures resp.success <==>
      SemiFinalsDone(MatchService.GetSemiFinalsMatches(old(db.matches))) &&
      MatchService.GetFinalMatch(old(db.matches)).None?
    ensures resp.success ==>
      var semis := MatchService.GetSemiFinalsMatches(old(db.matches));
      && resp.finalMatch.Some? && resp.message.None?
      && var f := resp.finalMatch.value;
      && f == MatchService.NewMatch(FreshId(old(db.nextId)), CreateMatchInput(f.player1Id, f.player2Id, KNOCKOUT, Some(FINAL)))
      && semis[0].winnerId == Some(f.player1Id) && semis[1].winnerId == Some(f.player2Id)
      && db.matches == old(db.matches) + [f] && db.nextId == old(db.nextId) + 1
    ensures NoSelfMatches(old(db.matches)) && FirstSemiFinalsApart(old(db.matches)) ==> NoSelfMatches(db.matches)
    ensures old(db.Consistent()) ==> db.Consistent()
  {
    var semiFinals := MatchService.GetSemiFinalsMatches(db.matches);
    var incompleteSemiFinals := Filter(semiFinals, Pending);
    if |incompleteSemiFinals| > 0 || |semiFinals| < 2 {
      return GenerateFinalMatchResponse(false, None, Some(SemiFinalsPendingMessage));
    }
    var existingFinal := MatchService.GetFinalMatch(db.matches);
    if existingFinal.Some? {
      return GenerateFinalMatchResponse(false, existingFinal, Some(FinalExistsMessage));
    }
    if FirstSemiFinalsApart(db.matches) {
      ApartSemiFinalsWinnersDiffer(db.players, db.matches, db.status, db.nextId);
    }
    var finalWithPlayers := CreateFinal(db);
    resp := GenerateFinalMatchResponse(true, finalWithPlayers, None);
  }

  /** The success path of generateFinalMatch: createMatch for the winners of
      the first two semi-finals, then the re-read of the new row. */
  method CreateFinal(db: Store) returns (finalWithPlayers: Option<Match>)
    requires db.Valid()
    requires SemiFinalsDone(MatchService.GetSemiFinalsMatches(db.matches))
    modifies db
    ensures db.Valid()
    ensures db.players == old(db.players) && db.status == old(db.status)
    ensures finalWithPlayers.Some?
    ensures var semis := MatchService.GetSemiFinalsMatches(old(db.matches));
      var f := finalWithPlayers.value;
      && f == MatchService.NewMatch(FreshId(old(db.nextId)), CreateMatchInput(f.player1Id, f.player2Id, KNOCKOUT, Some(FINAL)))
      && semis[0].winnerId == Some(f.player1Id) && semis[1].winnerId == Some(f.player2Id)
      && db.matches == old(db.matches) + [f] && db.nextId == old(db.nextId) + 1
    ensures old(db.Consistent()) ==> db.Consistent()
  {
    var semiFinals := MatchService.GetSemiFinalsMatches(db.matches);
    var winner1 := WinnerRecord(db.players, semiFinals[0]);
    var winner2 := WinnerRecord(db.players, semiFinals[1]);
    SemiFinalWinnerKnown(db.players, db.matches, db.status, db.nextId, 0);
    SemiFinalWinnerKnown(db.players, db.matches, db.status, db.nextId, 1);
    // 'Could not determine winners from semi-finals' cannot be returned in a valid store.
    assert winner1.Some? && winner2.Some? && winner1.value.id != "" && winner2.value.id != "";
    var finalMatch := MatchService.CreateMatch(db, CreateMatchInput(winner1.value.id, winner2.value.id, KNOCKOUT, Some(FINAL)));
    assert finalMatch.Success?;
    finalWithPlayers := MatchService.GetMatchById(db.matches, finalMatch.value.id);
    RefetchFindsNew(db.matches, finalMatch.value);
    // 'Failed to create final match' cannot be returned: the new row is found by its id.
    assert finalWithPlayers == Some(finalMatch.value);
  }

  /** Looking up the last-inserted match by its id finds that match. */
  lemma RefetchFindsNew(ms: seq<Match>, m: Match)
    requires DistinctMatchIds(ms) && ms != [] && ms[|ms| - 1] == m
    ensures MatchService.GetMatchById(ms, m.id) == Some(m)
  {
    DistinctMatchIdsMeans(ms);
    var k := MatchService.MatchIndex(ms, m.id);
    assert k < |ms|;
  }

  // ---- completeKnockoutPhase ------------------------------------------------

  /** The winner of the first completed FINAL, if any. */
  function ChampionFrom(ms: seq<Match>): (c: Option<Id>)
    ensures c.Some? ==> exists i :: 0 <= i < |ms| && IsWonFinal(ms[i], c.value)
    ensures c.None? && (forall m :: m in ms ==> WellFormedMatch(m)) ==>
              forall m :: m in ms ==> !MatchService.IsCompletedFinal(m)
  {
    var final := FindFirst(ms, MatchService.IsCompletedFinal);
    if final.Some? then final.value.winnerId else None
  }

  /** The status row after completeKnockoutPhase: the champion is set once,
      from the first completed final, and never overwritten. */
  function AfterKnockoutCheck(ms: seq<Match>, s: Option<TournamentStatus>): (t: Option<TournamentStatus>)
    ensures t.Some? <==> s.Some?
    ensures s.Some? && s.value.championId.Some? ==> t == s
    ensures ChampionFrom(ms).None? ==> t == s
    ensures s.Some? && s.value.championId.None? && ChampionFrom(ms).Some? ==>
              t == Some(s.value.(championId := ChampionFrom(ms)))
  {
    var c := ChampionFrom(ms);
    if c.Some? && s.Some? && s.value.championId.None? then Some(s.value.(championId := c)) else s
  }

  /** completeKnockoutPhase: names the winner of the completed final as
      champion unless a champion is already set; true when it did. */
  method CompleteKnockoutPhase(db: Store) returns (r: bool)
    requires db.Valid()
    modifies db
    ensures db.Valid()
    ensures db.players == old(db.players) && db.matches == old(db.matches) && db.nextId == old(db.nextId)
    ensures db.status == AfterKnockoutCheck(old(db.matches), old(db.status))
    ensures r <==> db.status != old(db.status)
    ensures old(db.Consistent()) ==> db.Consistent()
  {
    var final := FindFirst(db.matches, MatchService.IsCompletedFinal);
    var champion := if final.Some? then final.value.winnerId else None;
    if champion.None? {
      return false;
    }
    var status := db.status;
    if status.Some? && status.value.championId.None? {
      db.status := Some(status.value.(championId := champion));
      return true;
    }
    return false;
  }

  // ---- resetTournament ------------------------------------------------------

  /** Every player with ids and names kept and all stats back to zero. */
  function ResetStats(ps: seq<Player>): (r: seq<Player>)
    ensures |r| == |ps|
    ensures forall i :: 0 <= i < |ps| ==> r[i] == Player(ps[i].id, ps[i].name, 0, 0, 0, 0)
  {
    seq(|ps|, i requires 0 <= i < |ps| => ps[i].(points := 0, matchesPlayed := 0, wins := 0, losses := 0))
  }

  /** Zeroing the stats keeps the id column and empties the standings. */
  lemma ResetStatsFacts(ps: seq<Player>)
    ensures PlayerIds(ResetStats(ps)) == PlayerIds(ps)
    ensures DistinctIds(ps) ==> DistinctIds(ResetStats(ps))
    ensures StatsAgree(ResetStats(ps), []) && TotalPoints(ResetStats(ps)) == 0
  {
    ZeroTotal(ResetStats(ps));
  }

  lemma {:induction false} ZeroTotal(ps: seq<Player>)
    requires forall p :: p in ps ==> p.points == 0
    ensures TotalPoints(ps) == 0
  {
    if ps != [] {
      assert ps[0] in ps;
      assert forall p :: p in ps[1..] ==> p in ps;
      ZeroTotal(ps[1..]);
    }
  }

  /** resetTournament: deletes every match, zeroes every player's stats and
      puts the status row back to its defaults; the last step fails when
      there is no status row, after the tables have been cleared. */
  method ResetTournament(db: Store) returns (r: Result<()>)
    requires db.Valid()
    modifies db
    ensures db.Valid() && db.Consistent() && NoSelfMatches(db.matches)
    ensures db.matches == [] && db.players == ResetStats(old(db.players)) && db.nextId == old(db.nextId)
    ensures old(db.status).None? ==> r == Failure(StatusRecordMissing) && db.status == None
    ensures old(db.status).Some? ==> r == Success(()) && db.status == Some(DefaultStatus)
  {
    db.matches := [];
    ResetStatsFacts(db.players);
    DistinctPlayerIdsMeans(db.players);
    DistinctPlayerIdsMeans(ResetStats(db.players));
    db.players := ResetStats(db.players);
    if db.status.None? {
      return Failure(StatusRecordMissing);
    }
    db.status := Some(db.status.value.(currentPhase := GROUP, groupCompleted := false,
                                        knockoutCreated := false, championId := None));
    r := Success(());
  }
}
