/** The player registry (src/lib/services/player-service.ts): listing by
    points, lookup, registration, the top-N query and the stat update applied
    to each player of a recorded match. */
module PlayerService {
  import opened Types
  import opened Tables
  import opened Standings
  import opened Database

  /** getAllPlayers: every player, most points first. */
  function GetAllPlayers(ps: seq<Player>): (r: seq<Player>)
    ensures |r| == |ps| && multiset(r) == multiset(ps)
    ensures forall i, j :: 0 <= i < j < |r| ==> r[i].points >= r[j].points
  {
    OrderByPointsDesc(ps)
  }

  /** The position of the player with id `id`, or |ps| if none. */
  function PlayerIndex(ps: seq<Player>, id: Id): (k: nat)
    ensures k <= |ps|
    ensures k < |ps| <==> id in PlayerIds(ps)
    ensures k < |ps| ==> ps[k].id == id
    ensures DistinctIds(ps) ==> forall i :: 0 <= i < |ps| && ps[i].id == id ==> i == k
  {
    FirstIndex(ps, (p: Player) => p.id == id)
  }

  /** getPlayerById: the player with that id, if registered. */
  function GetPlayerById(ps: seq<Player>, id: Id): (r: Option<Player>)
    ensures r.Some? ==> r.value in ps && r.value.id == id
    ensures r.None? <==> id !in PlayerIds(ps)
  {
    var k := PlayerIndex(ps, id);
    if k < |ps| then Some(ps[k]) else None
  }

  /** getTopPlayers: at most `count` players, most points first, and nobody
      left out has more points than anyone taken. */
  function GetTopPlayers(ps: seq<Player>, count: nat): (r: seq<Player>)
    ensures |r| == if count < |ps| then count else |ps|
    ensures forall i, j :: 0 <= i < j < |r| ==> r[i].points >= r[j].points
    ensures multiset(r) <= multiset(ps)
    ensures forall q, p :: q in ps && q !in r && p in r ==> q.points <= p.points
  {
    var c := if count < |ps| then count else |ps|;
    TopPlayersFacts(ps, c);
    OrderByPointsDesc(ps)[..c]
  }

  lemma TopPlayersFacts(ps: seq<Player>, c: nat)
    requires c <= |ps|
    ensures multiset(OrderByPointsDesc(ps)[..c]) <= multiset(ps)
    ensures forall q, p :: q in ps && q !in OrderByPointsDesc(ps)[..c] && p in OrderByPointsDesc(ps)[..c] ==>
                           q.points <= p.points
  {
    var sorted := OrderByPointsDesc(ps);
    TakeSubMultiset(sorted, c);
    SameMultisetSameRows(sorted, ps);
    TakeIsTop(sorted, c);
  }

  lemma TakeSubMultiset(s: seq<Player>, c: nat)
    requires c <= |s|
    ensures multiset(s[..c]) <= multiset(s)
  {
    assert s == s[..c] + s[c..];
  }

  lemma TakeIsTop(sorted: seq<Player>, c: nat)
    requires c <= |sorted|
    requires forall i, j :: 0 <= i < j < |sorted| ==> sorted[i].points >= sorted[j].points
    ensures forall q, p :: q in sorted && q !in sorted[..c] && p in sorted[..c] ==> q.points <= p.points
  {
    forall q, p | q in sorted && q !in sorted[..c] && p in sorted[..c]
      ensures q.points <= p.points
    {
      var k :| 0 <= k < |sorted| && sorted[k] == q;
      var i :| 0 <= i < c && sorted[..c][i] == p;
    }
  }

  /** The players getTopPlayers returns are distinct players. */
  lemma TopPlayersDistinct(ps: seq<Player>, count: nat)
    requires DistinctIds(ps)
    ensures DistinctIds(GetTopPlayers(ps, count))
  {
    DistinctIdsSub(ps, GetTopPlayers(ps, count));
  }

  /** A sub-multiset of a table with unique ids has unique ids. */
  lemma DistinctIdsSub(ps: seq<Player>, r: seq<Player>)
    requires DistinctIds(ps) && multiset(r) <= multiset(ps)
    ensures DistinctIds(r)
  {
    forall a, b | 0 <= a < b < |r| ensures r[a].id != r[b].id {
      TwoPositionsCount(r, a, b);
      AtMostOnce(ps, r[a]);
      assert r[a] in multiset(ps) && r[b] in multiset(ps);
      SameIdSameRecord(ps, r[a], r[b]);
    }
  }

  lemma TwoPositionsCount(r: seq<Player>, a: nat, b: nat)
    requires a < b < |r|
    ensures r[a] == r[b] ==> multiset(r)[r[a]] >= 2
  {
    assert r == r[..b] + r[b..];
    assert r[a] == r[..b][a];
    assert r[b] == r[b..][0];
  }

  lemma {:induction false} AtMostOnce(ps: seq<Player>, x: Player)
    requires DistinctIds(ps)
    ensures multiset(ps)[x] <= 1
  {
    if ps != [] {
      var t := ps[1..];
      assert ps == [ps[0]] + t;
      assert DistinctIds(t) by {
        forall i, j | 0 <= i < j < |t| ensures t[i].id != t[j].id {
          assert t[i] == ps[i + 1] && t[j] == ps[j + 1];
        }
      }
      AtMostOnce(t, x);
      if x == ps[0] {
        forall y | y in t ensures y != x {
          var j :| 0 <= j < |t| && t[j] == y;
          assert ps[j + 1] == y;
        }
        assert x !in t;
        assert multiset(t)[x] == 0;
      }
    }
  }

  lemma SameIdSameRecord(ps: seq<Player>, x: Player, y: Player)
    requires DistinctIds(ps)
    ensures x in ps && y in ps && x.id == y.id ==> x == y
  {
    if x in ps && y in ps {
      var i :| 0 <= i < |ps| && ps[i] == x;
      var j :| 0 <= j < |ps| && ps[j] == y;
      assert x.id == y.id ==> i == j;
    }
  }

  /** The record updatePlayerStats writes: one more match played, and one
      more win and point for the winner or one more loss for the loser. */
  function ApplyResult(p: Player, isWinner: bool): (q: Player)
    ensures q.id == p.id && q.name == p.name
    ensures q.matchesPlayed == p.matchesPlayed + 1
    ensures isWinner ==> q.points == p.points + 1 && q.wins == p.wins + 1 && q.losses == p.losses
    ensures !isWinner ==> q.points == p.points && q.wins == p.wins && q.losses == p.losses + 1
    ensures BalancedStats(p) ==> BalancedStats(q)
  {
    p.(points := if isWinner then p.points + 1 else p.points,
       matchesPlayed := p.matchesPlayed + 1,
       wins := if isWinner then p.wins + 1 else p.wins,
       losses := if isWinner then p.losses else p.losses + 1)
  }

  /** Replacing a player's record by one with the same id keeps the id column. */
  lemma PlayerIdsSameId(ps: seq<Player>, k: nat, q: Player)
    requires k < |ps| && q.id == ps[k].id
    ensures PlayerIds(ps[k := q]) == PlayerIds(ps)
  {
  }

  /** A player whose id is longer than every registered one can be added
      without repeating an id. */
  lemma AppendKeepsDistinct(ps: seq<Player>, p: Player, nextId: nat)
    requires DistinctPlayerIds(ps)
    requires forall q :: q in ps ==> |q.id| <= nextId
    requires |p.id| > nextId
    ensures DistinctPlayerIds(ps + [p])
  {
    var ps' := ps + [p];
    forall i, j | 0 <= i < j < |ps'| ensures PlayerIdAt(ps', i) != PlayerIdAt(ps', j) {
      if j == |ps| {
        assert ps[i] in ps;
      } else {
        assert PlayerIdAt(ps', i) == PlayerIdAt(ps, i) && PlayerIdAt(ps', j) == PlayerIdAt(ps, j);
      }
    }
  }

  /** Rewriting one record without changing its id keeps ids unique. */
  lemma UpdateKeepsDistinct(ps: seq<Player>, k: nat, q: Player)
    requires DistinctPlayerIds(ps) && k < |ps| && q.id == ps[k].id
    ensures DistinctPlayerIds(ps[k := q])
  {
    var ps' := ps[k := q];
    forall i, j | 0 <= i < j < |ps'| ensures PlayerIdAt(ps', i) != PlayerIdAt(ps', j) {
      assert PlayerIdAt(ps', i) == PlayerIdAt(ps, i) && PlayerIdAt(ps', j) == PlayerIdAt(ps, j);
    }
  }

  /** createPlayer: appends a player with the given name, a fresh id and no stats. */
  method CreatePlayer(db: Store, data: CreatePlayerInput) returns (p: Player)
    requires db.Valid()
    modifies db
    ensures db.Valid()
    ensures p == Player(FreshId(old(db.nextId)), data.name, 0, 0, 0, 0)
    ensures p.id !in PlayerIds(old(db.players))
    ensures db.players == old(db.players) + [p] && db.nextId == old(db.nextId) + 1
    ensures db.matches == old(db.matches) && db.status == old(db.status)
    ensures old(db.Consistent()) ==> db.Consistent()
  {
    p := Player(FreshId(db.nextId), data.name, 0, 0, 0, 0);
    assert p.id !in PlayerIds(db.players);
    WinsInUninvolved(db.matches, p.id);
    AppendKeepsDistinct(db.players, p, db.nextId);
    db.players := db.players + [p];
    db.nextId := db.nextId + 1;
    assert PlayerIds(db.players) == PlayerIds(old(db.players)) + [p.id];
  }

  /** updatePlayerStats: read-modify-write of one player's record; fails
      for an unknown id. */
  method UpdatePlayerStats(db: Store, playerId: Id, isWinner: bool) returns (r: Result<Player>)
    requires db.Valid()
    modifies db
    ensures db.Valid()
    ensures db.matches == old(db.matches) && db.status == old(db.status) && db.nextId == old(db.nextId)
    ensures r.Failure? <==> playerId !in PlayerIds(old(db.players))
    ensures r.Failure? ==> r.error == PlayerNotFound(playerId) && db.players == old(db.players)
    ensures r.Success? ==>
      var k := PlayerIndex(old(db.players), playerId);
      && db.players == old(db.players)[k := ApplyResult(old(db.players)[k], isWinner)]
      && r.value == db.players[k]
  {
    var k := PlayerIndex(db.players, playerId);
    if k == |db.players| {
      return Failure(PlayerNotFound(playerId));
    }
    var updated := ApplyResult(db.players[k], isWinner);
    PlayerIdsSameId(db.players, k, updated);
    UpdateKeepsDistinct(db.players, k, updated);
    db.players := db.players[k := updated];
    r := Success(updated);
  }
}
