/** The player and game-record store of TRexServer/DatabaseManager.cs: the two tables its
    SQL reads and writes, held in memory. The statements' meaning is written out: a
    lookup or insert of a player by name, a game record plus two statistics updates per
    result, and three selections (stats by name, leaderboard, recent games). */
module Store {
  import opened Wrappers
  import opened DotNet

  /** A row of the `players` table, as PlayerStats reads it back. */
  datatype PlayerStats = PlayerStats(
    playerId: int, playerName: string,
    totalGames: int, totalWins: int, totalLosses: int, highestScore: int)

  /** A row of the `game_records` table; `gameId` is its AUTO_INCREMENT key. */
  datatype GameRecord = GameRecord(
    gameId: int, player1Id: int, player2Id: int,
    player1Score: Int32, player2Score: Int32, winnerId: int, gameDuration: int)

  /** Both tables and their AUTO_INCREMENT counters. */
  datatype Tables = Tables(
    players: seq<PlayerStats>, games: seq<GameRecord>, nextPlayerId: int, nextGameId: int)

  // ---------------------------------------------------------------------------
  // What the schema keeps true

  /** Every game a player took part in counted once, as a win or as a loss; the highest
      score starts at 0 (the column default). */
  predicate Balanced(p: PlayerStats)
  {
    0 <= p.totalWins && 0 <= p.totalLosses && p.totalGames == p.totalWins + p.totalLosses && 0 <= p.highestScore
  }

  predicate HasPlayer(players: seq<PlayerStats>, id: int)
  {
    exists i :: 0 <= i < |players| && players[i].playerId == id
  }

  /** The primary key, the UNIQUE name, the AUTO_INCREMENT counters, the foreign keys of
      game_records, and balanced statistics. */
  predicate ValidTables(t: Tables)
  {
    && 0 < t.nextPlayerId && 0 < t.nextGameId
    && (forall i :: 0 <= i < |t.players| ==> 0 < t.players[i].playerId < t.nextPlayerId)
    && (forall i, j :: 0 <= i < j < |t.players| ==>
          t.players[i].playerId != t.players[j].playerId && t.players[i].playerName != t.players[j].playerName)
    && (forall i :: 0 <= i < |t.players| ==> Balanced(t.players[i]))
    && (forall i :: 0 <= i < |t.games| ==> 0 < t.games[i].gameId < t.nextGameId)
    && (forall i, j :: 0 <= i < j < |t.games| ==> t.games[i].gameId < t.games[j].gameId)
    && (forall i :: 0 <= i < |t.games| ==>
          HasPlayer(t.players, t.games[i].player1Id) && HasPlayer(t.players, t.games[i].player2Id))
  }

  // ---------------------------------------------------------------------------
  // Lookups

  /** The lookup by name: the position of the row with that name. */
  function FindByName(players: seq<PlayerStats>, name: string): (r: Option<nat>)
    ensures r.Some? ==> r.value < |players| && players[r.value].playerName == name
    ensures r.None? ==> forall i :: 0 <= i < |players| ==> players[i].playerName != name
  {
    if |players| == 0 then None
    else if players[0].playerName == name then Some(0)
    else match FindByName(players[1..], name)
      case None => None
      case Some(i) => Some(i + 1)
  }

  /** `GetPlayerStats`: the row with that name, or null when there is none. */
  function GetPlayerStats(players: seq<PlayerStats>, name: string): (r: Option<PlayerStats>)
    ensures r.Some? ==> r.value in players && r.value.playerName == name
    ensures r.None? <==> forall i :: 0 <= i < |players| ==> players[i].playerName != name
  {
    match FindByName(players, name)
    case None => None
    case Some(i) => Some(players[i])
  }

  /** With unique names, the row GetPlayerStats returns is the one row of that name. */
  lemma GetPlayerStatsUnique(t: Tables, name: string, i: nat)
    requires ValidTables(t)
    requires i < |t.players| && t.players[i].playerName == name
    ensures GetPlayerStats(t.players, name) == Some(t.players[i])
  {
  }

  // ---------------------------------------------------------------------------
  // GetOrCreatePlayer

  /** `GetOrCreatePlayer(name)` with `fails` standing for a connection or driver error,
      which it reports as -1: the id of the existing row of that name, or else the id of a
      single new row inserted with zeroed statistics. */
  function GetOrCreate(t: Tables, name: string, fails: bool): (r: (int, Tables))
    ensures fails ==> r == (-1, t)
    ensures t.players <= r.1.players && |r.1.players| <= |t.players| + 1
    ensures r.1.games == t.games && r.1.nextGameId == t.nextGameId
  {
    if fails then (-1, t)
    else match FindByName(t.players, name)
      case Some(i) => (t.players[i].playerId, t)
      case None =>
        var id := t.nextPlayerId;
        (id, t.(players := t.players + [PlayerStats(id, name, 0, 0, 0, 0)], nextPlayerId := id + 1))
  }

  lemma GetOrCreateKeepsValid(t: Tables, name: string, fails: bool)
    requires ValidTables(t)
    ensures ValidTables(GetOrCreate(t, name, fails).1)
  {
    var t' := GetOrCreate(t, name, fails).1;
    if !fails && FindByName(t.players, name).None? {
      forall i | 0 <= i < |t.games|
        ensures HasPlayer(t'.players, t.games[i].player1Id) && HasPlayer(t'.players, t.games[i].player2Id)
      {
        var a :| 0 <= a < |t.players| && t.players[a].playerId == t.games[i].player1Id;
        var b :| 0 <= b < |t.players| && t.players[b].playerId == t.games[i].player2Id;
        assert t'.players[a] == t.players[a] && t'.players[b] == t.players[b];
      }
    }
  }

  /** An existing name gets its own id back, from an unchanged table. */
  lemma GetOrCreateExisting(t: Tables, name: string, i: nat)
    requires ValidTables(t)
    requires i < |t.players| && t.players[i].playerName == name
    ensures GetOrCreate(t, name, false) == (t.players[i].playerId, t)
  {
    GetPlayerStatsUnique(t, name, i);
  }

  /** A new name gets exactly one new row, whose id no other row has. */
  lemma GetOrCreateNew(t: Tables, name: string)
    requires ValidTables(t)
    requires forall i :: 0 <= i < |t.players| ==> t.players[i].playerName != name
    ensures var (id, t') := GetOrCreate(t, name, false);
            && id > 0
            && t'.players == t.players + [PlayerStats(id, name, 0, 0, 0, 0)]
            && t'.games == t.games
            && forall i :: 0 <= i < |t.players| ==> t.players[i].playerId != id
  {
  }

  /** Whatever happens, a non-failing call answers with a positive id that the table
      afterwards holds under exactly that name. */
  lemma GetOrCreateAnswers(t: Tables, name: string)
    requires ValidTables(t)
    ensures var (id, t') := GetOrCreate(t, name, false);
            id > 0 && exists i :: 0 <= i < |t'.players| && t'.players[i].playerId == id && t'.players[i].playerName == name
  {
    var r := GetOrCreate(t, name, false);
    var found := FindByName(t.players, name);
    if found.Some? {
      assert r.1 == t && r.0 == t.players[found.value].playerId;
    } else {
      assert r.1.players[|t.players|] == PlayerStats(t.nextPlayerId, name, 0, 0, 0, 0);
    }
  }

  // ---------------------------------------------------------------------------
  // SaveGameResult and UpdatePlayerStats

  /** The result's winner: player 1 only with a strictly higher score; a tie goes to
      player 2. */
  function WinnerId(player1Id: int, player2Id: int, player1Score: int, player2Score: int): (w: int)
    ensures w == player1Id || w == player2Id
    ensures player1Score > player2Score ==> w == player1Id
    ensures player1Score <= player2Score ==> w == player2Id
  {
    if player1Score > player2Score then player1Id else player2Id
  }

  /** One UpdatePlayerStats applied to a row. */
  function Bumped(p: PlayerStats, score: int, isWinner: bool): PlayerStats
  {
    p.(totalGames := p.totalGames + 1,
       totalWins := p.totalWins + (if isWinner then 1 else 0),
       totalLosses := p.totalLosses + (if isWinner then 0 else 1),
       highestScore := if p.highestScore >= score then p.highestScore else score)
  }

  /** The statistics update, applied to every row with the id. */
  function UpdateStats(players: seq<PlayerStats>, id: int, score: int, isWinner: bool): (r: seq<PlayerStats>)
    ensures |r| == |players|
    ensures forall i :: 0 <= i < |r| && players[i].playerId != id ==> r[i] == players[i]
    ensures forall i :: 0 <= i < |r| && players[i].playerId == id ==>
              && r[i].playerId == id && r[i].playerName == players[i].playerName
              && r[i].totalGames == players[i].totalGames + 1
              && r[i].totalWins + r[i].totalLosses == players[i].totalWins + players[i].totalLosses + 1
              && r[i].highestScore >= players[i].highestScore && r[i].highestScore >= score
  {
    seq(|players|, i requires 0 <= i < |players| =>
      if players[i].playerId == id then Bumped(players[i], score, isWinner) else players[i])
  }

  /** `SaveGameResult`: one game record, then the statistics of player 1 and of player 2.
      A player id with no row violates the record's foreign key; the INSERT then throws,
      the exception is caught, and nothing is written. */
  function SaveResult(t: Tables, player1Id: int, player2Id: int,
                      player1Score: Int32, player2Score: Int32, gameDuration: int): (r: Tables)
    ensures t.games <= r.games && |r.games| <= |t.games| + 1
    ensures |r.players| == |t.players| && r.nextPlayerId == t.nextPlayerId
  {
    if !HasPlayer(t.players, player1Id) || !HasPlayer(t.players, player2Id) then t
    else
      var winnerId := WinnerId(player1Id, player2Id, player1Score, player2Score);
      var record := GameRecord(t.nextGameId, player1Id, player2Id, player1Score, player2Score, winnerId, gameDuration);
      var players := UpdateStats(t.players, player1Id, player1Score, player1Id == winnerId);
      var players' := UpdateStats(players, player2Id, player2Score, player2Id == winnerId);
      Tables(players', t.games + [record], t.nextPlayerId, t.nextGameId + 1)
  }

  /** Same rows, keyed and named as before. */
  predicate SameKeys(a: seq<PlayerStats>, b: seq<PlayerStats>)
  {
    |a| == |b| && forall i :: 0 <= i < |a| ==> a[i].playerId == b[i].playerId && a[i].playerName == b[i].playerName
  }

  lemma UpdateStatsKeeps(players: seq<PlayerStats>, id: int, score: int, isWinner: bool)
    ensures var u := UpdateStats(players, id, score, isWinner);
            SameKeys(players, u) && forall i :: 0 <= i < |u| && Balanced(players[i]) ==> Balanced(u[i])
  {
  }

  lemma SameKeysKeepsValid(t: Tables, players: seq<PlayerStats>)
    requires ValidTables(t) && SameKeys(t.players, players)
    requires forall i :: 0 <= i < |players| ==> Balanced(players[i])
    ensures ValidTables(t.(players := players))
  {
    forall id | HasPlayer(t.players, id) ensures HasPlayer(players, id) {
      var a :| 0 <= a < |t.players| && t.players[a].playerId == id;
      assert players[a].playerId == id;
    }
  }

  lemma SaveResultKeepsValid(t: Tables, player1Id: int, player2Id: int,
                             player1Score: Int32, player2Score: Int32, gameDuration: int)
    requires ValidTables(t)
    ensures ValidTables(SaveResult(t, player1Id, player2Id, player1Score, player2Score, gameDuration))
  {
    if HasPlayer(t.players, player1Id) && HasPlayer(t.players, player2Id) {
      var winnerId := WinnerId(player1Id, player2Id, player1Score, player2Score);
      var record := GameRecord(t.nextGameId, player1Id, player2Id, player1Score, player2Score, winnerId, gameDuration);
      var t1 := t.(games := t.games + [record], nextGameId := t.nextGameId + 1);
      AppendRecordKeepsValid(t, record);
      var u1 := UpdateStats(t.players, player1Id, player1Score, player1Id == winnerId);
      var u2 := UpdateStats(u1, player2Id, player2Score, player2Id == winnerId);
      UpdateStatsKeeps(t.players, player1Id, player1Score, player1Id == winnerId);
      UpdateStatsKeeps(u1, player2Id, player2Score, player2Id == winnerId);
      assert SameKeys(t1.players, u2);
      SameKeysKeepsValid(t1, u2);
      assert SaveResult(t, player1Id, player2Id, player1Score, player2Score, gameDuration) == t1.(players := u2);
    }
  }

  /** A record of two known players under the next game id keeps the tables valid. */
  lemma AppendRecordKeepsValid(t: Tables, record: GameRecord)
    requires ValidTables(t) && record.gameId == t.nextGameId
    requires HasPlayer(t.players, record.player1Id) && HasPlayer(t.players, record.player2Id)
    ensures ValidTables(t.(games := t.games + [record], nextGameId := t.nextGameId + 1))
  {
  }

  /** Nothing is written for an unknown player id. */
  lemma SaveResultUnknownPlayer(t: Tables, player1Id: int, player2Id: int,
                                player1Score: Int32, player2Score: Int32, gameDuration: int)
    requires !HasPlayer(t.players, player1Id) || !HasPlayer(t.players, player2Id)
    ensures SaveResult(t, player1Id, player2Id, player1Score, player2Score, gameDuration) == t
  {
  }

  /** For two known and different players: exactly one record is appended, carrying the
      winner; each player has one more game, the winner one more win and the other one
      more loss; the highest score becomes the larger of the old one and this score; no
      other row and no other record changes. */
  lemma SaveResultEffect(t: Tables, player1Id: int, player2Id: int,
                         player1Score: Int32, player2Score: Int32, gameDuration: int)
    requires HasPlayer(t.players, player1Id) && HasPlayer(t.players, player2Id)
    requires player1Id != player2Id
    ensures var t' := SaveResult(t, player1Id, player2Id, player1Score, player2Score, gameDuration);
            var winner := if player1Score > player2Score then player1Id else player2Id;
            && t'.games == t.games + [GameRecord(t.nextGameId, player1Id, player2Id, player1Score, player2Score, winner, gameDuration)]
            && t'.nextPlayerId == t.nextPlayerId
            && |t'.players| == |t.players|
            && forall i :: 0 <= i < |t.players| ==>
                 var p, p' := t.players[i], t'.players[i];
                 var id := p.playerId;
                 var score := if id == player1Id then player1Score else player2Score;
                 && p'.playerId == id && p'.playerName == p.playerName
                 && (id != player1Id && id != player2Id ==> p' == p)
                 && (id == player1Id || id == player2Id ==>
                       && p'.totalGames == p.totalGames + 1
                       && p'.totalWins == p.totalWins + (if id == winner then 1 else 0)
                       && p'.totalLosses == p.totalLosses + (if id == winner then 0 else 1)
                       && p'.highestScore == (if p.highestScore >= score then p.highestScore else score))
  {
  }

  function Max(a: int, b: int): int { if a >= b then a else b }

  /** Two seats with the same known id (two clients that chose the same nickname): the
      one record names that id as winner, and its row gets two more games, both of them
      wins, and the largest of the old highest score and the two scores. */
  lemma SaveResultSamePlayer(t: Tables, id: int, player1Score: Int32, player2Score: Int32, gameDuration: int)
    requires HasPlayer(t.players, id)
    ensures var t' := SaveResult(t, id, id, player1Score, player2Score, gameDuration);
            && t'.games == t.games + [GameRecord(t.nextGameId, id, id, player1Score, player2Score, id, gameDuration)]
            && t'.nextPlayerId == t.nextPlayerId
            && |t'.players| == |t.players|
            && forall i :: 0 <= i < |t.players| ==>
                 var p, p' := t.players[i], t'.players[i];
                 && p'.playerId == p.playerId && p'.playerName == p.playerName
                 && (p.playerId != id ==> p' == p)
                 && (p.playerId == id ==>
                       && p'.totalGames == p.totalGames + 2
                       && p'.totalWins == p.totalWins + 2
                       && p'.totalLosses == p.totalLosses
                       && p'.highestScore == Max(p.highestScore, Max(player1Score, player2Score)))
  {
  }

  /** The highest score of every row never goes down. */
  lemma SaveResultHighestScoreMonotone(t: Tables, player1Id: int, player2Id: int,
                                       player1Score: Int32, player2Score: Int32, gameDuration: int, i: nat)
    requires i < |t.players|
    ensures var t' := SaveResult(t, player1Id, player2Id, player1Score, player2Score, gameDuration);
            |t'.players| == |t.players| && t'.players[i].highestScore >= t.players[i].highestScore
  {
  }

  // ---------------------------------------------------------------------------
  // The leaderboard: rows with a game, most wins first, then highest score first, at most `limit`

  /** `a` may stand before `b` in the leaderboard's order. */
  predicate Ranks(a: PlayerStats, b: PlayerStats)
  {
    a.totalWins > b.totalWins || (a.totalWins == b.totalWins && a.highestScore >= b.highestScore)
  }

  predicate SortedByRank(s: seq<PlayerStats>)
  {
    forall i, j :: 0 <= i < j < |s| ==> Ranks(s[i], s[j])
  }

  /** The rows that have played at least one game. */
  function Eligible(players: seq<PlayerStats>): (r: seq<PlayerStats>)
    ensures forall p :: p in r <==> p in players && p.totalGames > 0
  {
    if |players| == 0 then []
    else (if players[0].totalGames > 0 then [players[0]] else []) + Eligible(players[1..])
  }

  function Insert(x: PlayerStats, s: seq<PlayerStats>): seq<PlayerStats>
  {
    if |s| == 0 then [x]
    else if Ranks(x, s[0]) then [x] + s
    else [s[0]] + Insert(x, s[1..])
  }

  function SortByRank(s: seq<PlayerStats>): seq<PlayerStats>
  {
    if |s| == 0 then [] else Insert(s[0], SortByRank(s[1..]))
  }

  /** `a` ranks at or above every element of `s`. */
  predicate RanksAll(a: PlayerStats, s: seq<PlayerStats>)
  {
    forall j :: 0 <= j < |s| ==> Ranks(a, s[j])
  }

  lemma RanksAllPermuted(a: PlayerStats, s: seq<PlayerStats>, t: seq<PlayerStats>)
    requires RanksAll(a, s) && multiset(s) == multiset(t)
    ensures RanksAll(a, t)
  {
    forall j | 0 <= j < |t| ensures Ranks(a, t[j]) {
      assert t[j] in multiset(s);
      var k :| 0 <= k < |s| && s[k] == t[j];
    }
  }

  /** Ranking at or above the head of a sorted sequence is ranking above all of it. */
  lemma RanksAbove(x: PlayerStats, s: seq<PlayerStats>)
    requires SortedByRank(s) && |s| > 0 && Ranks(x, s[0])
    ensures RanksAll(x, s)
  {
    forall j | 0 < j < |s| ensures Ranks(x, s[j]) {
      assert Ranks(s[0], s[j]);
    }
  }

  /** The head of a sorted sequence ranks above its tail and anything `x` it does not
      rank below. */
  lemma RanksOthers(s: seq<PlayerStats>, x: PlayerStats)
    requires SortedByRank(s) && |s| > 0 && !Ranks(x, s[0])
    ensures RanksAll(s[0], s[1..] + [x])
  {
    var others := s[1..] + [x];
    forall j | 0 <= j < |others| ensures Ranks(s[0], others[j]) {
      if j < |s| - 1 {
        assert others[j] == s[j + 1];
      }
    }
  }

  lemma SortedCons(x: PlayerStats, s: seq<PlayerStats>)
    requires SortedByRank(s) && RanksAll(x, s)
    ensures SortedByRank([x] + s)
  {
  }

  lemma {:induction false} InsertSorted(x: PlayerStats, s: seq<PlayerStats>)
    requires SortedByRank(s)
    ensures SortedByRank(Insert(x, s)) && multiset(Insert(x, s)) == multiset(s) + multiset{x}
  {
    if |s| > 0 {
      assert s == [s[0]] + s[1..];
      if Ranks(x, s[0]) {
        RanksAbove(x, s);
        SortedCons(x, s);
      } else {
        InsertSorted(x, s[1..]);
        var rest := Insert(x, s[1..]);
        var others := s[1..] + [x];
        RanksOthers(s, x);
        assert multiset(others) == multiset(rest);
        RanksAllPermuted(s[0], others, rest);
        SortedCons(s[0], rest);
        assert Insert(x, s) == [s[0]] + rest;
      }
    }
  }

  lemma {:induction false} SortByRankSorted(s: seq<PlayerStats>)
    ensures SortedByRank(SortByRank(s)) && multiset(SortByRank(s)) == multiset(s)
  {
    if |s| > 0 {
      SortByRankSorted(s[1..]);
      InsertSorted(s[0], SortByRank(s[1..]));
      assert s == [s[0]] + s[1..];
    }
  }

  /** `GetLeaderboard(limit)`: at most `limit` rows, each one having played a game, in
      the leaderboard's order. A negative limit is an SQL error, caught, which leaves the
      list empty. */
  function GetLeaderboard(players: seq<PlayerStats>, limit: int): (r: seq<PlayerStats>)
    ensures limit < 0 ==> r == []
    ensures |r| <= limit || r == []
    ensures forall i :: 0 <= i < |r| ==> r[i] in players && r[i].totalGames > 0
    ensures SortedByRank(r)
  {
    if limit < 0 then []
    else
      var sorted := SortByRank(Eligible(players));
      SortByRankSorted(Eligible(players));
      var k := if limit < |sorted| then limit else |sorted|;
      RankedPrefix(players, sorted, k);
      sorted[..k]
  }

  /** A prefix of the ranked rows with a game is sorted and holds only such rows. */
  lemma RankedPrefix(players: seq<PlayerStats>, sorted: seq<PlayerStats>, k: nat)
    requires SortedByRank(sorted) && multiset(sorted) == multiset(Eligible(players)) && k <= |sorted|
    ensures SortedByRank(sorted[..k])
    ensures forall i :: 0 <= i < k ==> sorted[..k][i] in players && sorted[..k][i].totalGames > 0
  {
    forall i | 0 <= i < k ensures sorted[..k][i] in players && sorted[..k][i].totalGames > 0 {
      assert sorted[..k][i] == sorted[i];
      assert sorted[i] in multiset(Eligible(players));
    }
  }

  /** `shown` is a top-`limit` selection from `all`, with `rest` the rows left out:
      together they are exactly `all`, each row shown ranks at or above every row left
      out, and rows are left out only once the list is full. */
  predicate TopK(shown: seq<PlayerStats>, rest: seq<PlayerStats>, all: seq<PlayerStats>, limit: nat)
  {
    && multiset(shown) + multiset(rest) == multiset(all)
    && (forall i, j :: 0 <= i < |shown| && 0 <= j < |rest| ==> Ranks(shown[i], rest[j]))
    && (|rest| > 0 ==> |shown| == limit)
  }

  /** The leaderboard is a top-k selection from the rows with a game. */
  lemma LeaderboardTopK(players: seq<PlayerStats>, limit: nat)
    ensures exists rest :: TopK(GetLeaderboard(players, limit), rest, Eligible(players), limit)
  {
    var sorted := SortByRank(Eligible(players));
    SortByRankSorted(Eligible(players));
    var k := if limit < |sorted| then limit else |sorted|;
    var r := GetLeaderboard(players, limit);
    assert r == sorted[..k];
    SortedSplit(sorted, k);
    assert TopK(r, sorted[k..], Eligible(players), limit);
  }

  /** Cutting a sorted sequence leaves every element of the front ranking at or above
      every element of the back, and loses nothing. */
  lemma SortedSplit(s: seq<PlayerStats>, k: nat)
    requires SortedByRank(s) && k <= |s|
    ensures multiset(s[..k]) + multiset(s[k..]) == multiset(s)
    ensures forall i, j :: 0 <= i < |s[..k]| && 0 <= j < |s[k..]| ==> Ranks(s[..k][i], s[k..][j])
  {
    assert s == s[..k] + s[k..];
    forall i, j | 0 <= i < |s[..k]| && 0 <= j < |s[k..]| ensures Ranks(s[..k][i], s[k..][j]) {
      assert s[..k][i] == s[i] && s[k..][j] == s[k + j];
    }
  }

  // ---------------------------------------------------------------------------
  // Recent games: records involving the player, latest first, at most `limit`

  predicate Involves(g: GameRecord, playerId: int)
  {
    g.player1Id == playerId || g.player2Id == playerId
  }

  /** The records involving the player, later insertions first. */
  function NewestFirst(games: seq<GameRecord>, playerId: int): (r: seq<GameRecord>)
    ensures forall g :: g in r <==> g in games && Involves(g, playerId)
  {
    if |games| == 0 then []
    else
      var last := games[|games| - 1];
      assert games == games[..|games| - 1] + [last];
      (if Involves(last, playerId) then [last] else []) + NewestFirst(games[..|games| - 1], playerId)
  }

  /** `GetRecentGames(playerId, limit)`: at most `limit` records, each involving the
      player. A negative limit is an SQL error, caught, which leaves the list empty. */
  function GetRecentGames(games: seq<GameRecord>, playerId: int, limit: int): (r: seq<GameRecord>)
    ensures limit < 0 ==> r == []
    ensures |r| <= limit || r == []
    ensures forall i :: 0 <= i < |r| ==> r[i] in games && Involves(r[i], playerId)
  {
    if limit < 0 then []
    else
      var all := NewestFirst(games, playerId);
      assert forall i :: 0 <= i < |all| ==> all[i] in all;
      all[..if limit < |all| then limit else |all|]
  }

  predicate IdsIncreasing(games: seq<GameRecord>)
  {
    forall i, j :: 0 <= i < j < |games| ==> games[i].gameId < games[j].gameId
  }

  predicate IdsDecreasing(games: seq<GameRecord>)
  {
    forall i, j :: 0 <= i < j < |games| ==> games[i].gameId > games[j].gameId
  }

  lemma DecreasingCons(x: GameRecord, s: seq<GameRecord>)
    requires IdsDecreasing(s) && forall j :: 0 <= j < |s| ==> s[j].gameId < x.gameId
    ensures IdsDecreasing([x] + s)
  {
  }

  lemma {:induction false} NewestFirstDecreasing(games: seq<GameRecord>, playerId: int)
    requires IdsIncreasing(games)
    ensures IdsDecreasing(NewestFirst(games, playerId))
  {
    if |games| > 0 {
      var init := games[..|games| - 1];
      var last := games[|games| - 1];
      assert IdsIncreasing(init);
      NewestFirstDecreasing(init, playerId);
      var rest := NewestFirst(init, playerId);
      if Involves(last, playerId) {
        forall j | 0 <= j < |rest| ensures rest[j].gameId < last.gameId {
          assert rest[j] in rest;
          var k :| 0 <= k < |init| && init[k] == rest[j];
          assert games[k] == rest[j];
        }
        DecreasingCons(last, rest);
      }
    }
  }

  /** With record ids increasing in insertion order (AUTO_INCREMENT), the recent games
      come newest first, and a record involving the player is left out only when the list
      is full and every record in it is newer. */
  lemma RecentGamesNewestFirst(games: seq<GameRecord>, playerId: int, limit: nat)
    requires IdsIncreasing(games)
    ensures var r := GetRecentGames(games, playerId, limit);
            && IdsDecreasing(r)
            && forall g :: g in games && Involves(g, playerId) && g !in r ==>
                 |r| == limit && forall x :: x in r ==> x.gameId > g.gameId
  {
    var r := GetRecentGames(games, playerId, limit);
    var all := NewestFirst(games, playerId);
    NewestFirstDecreasing(games, playerId);
    var k := if limit < |all| then limit else |all|;
    assert r == all[..k];
    forall i, j | 0 <= i < j < |r| ensures r[i].gameId > r[j].gameId {
      assert r[i] == all[i] && r[j] == all[j];
      assert all[i].gameId > all[j].gameId;
    }
    forall g | g in games && Involves(g, playerId) && g !in r
      ensures |r| == limit && forall x :: x in r ==> x.gameId > g.gameId
    {
      var j :| 0 <= j < |all| && all[j] == g;
      assert k <= j;
      forall x | x in r ensures x.gameId > g.gameId {
        var i :| 0 <= i < |r| && r[i] == x;
        assert all[i] == x && i < k <= j;
        assert all[i].gameId > all[j].gameId;
      }
    }
  }

  // ---------------------------------------------------------------------------
  // The store object

  class DatabaseManager {
    var players: seq<PlayerStats>
    var games: seq<GameRecord>
    var nextPlayerId: int
    var nextGameId: int

    function Snapshot(): Tables
      reads this
    {
      Tables(players, games, nextPlayerId, nextGameId)
    }

    predicate Valid()
      reads this
    {
      ValidTables(Snapshot())
    }

    /** The tables are created only if they do not exist, so the store opens on whatever
        rows it already holds. */
    constructor (initial: Tables)
      requires ValidTables(initial)
      ensures Valid() && Snapshot() == initial
    {
      players, games := initial.players, initial.games;
      nextPlayerId, nextGameId := initial.nextPlayerId, initial.nextGameId;
    }

    method GetOrCreatePlayer(playerName: string, fails: bool) returns (id: int)
      requires Valid()
      modifies this
      ensures Valid()
      ensures (id, Snapshot()) == GetOrCreate(old(Snapshot()), playerName, fails)
    {
      GetOrCreateKeepsValid(Snapshot(), playerName, fails);
      if fails {
        return -1;
      }
      var found := FindByName(players, playerName);
      if found.Some? {
        return players[found.value].playerId;
      }
      id := nextPlayerId;
      players := players + [PlayerStats(id, playerName, 0, 0, 0, 0)];
      nextPlayerId := nextPlayerId + 1;
    }

    method SaveGameResult(player1Id: int, player2Id: int, player1Score: Int32, player2Score: Int32, gameDuration: int)
      requires Valid()
      modifies this
      ensures Valid()
      ensures Snapshot() == SaveResult(old(Snapshot()), player1Id, player2Id, player1Score, player2Score, gameDuration)
    {
      ghost var saved := SaveResult(Snapshot(), player1Id, player2Id, player1Score, player2Score, gameDuration);
      SaveResultKeepsValid(Snapshot(), player1Id, player2Id, player1Score, player2Score, gameDuration);
      if !HasPlayer(players, player1Id) || !HasPlayer(players, player2Id) {
        return;
      }
      var winnerId := if player1Score > player2Score then player1Id else player2Id;
      games := games + [GameRecord(nextGameId, player1Id, player2Id, player1Score, player2Score, winnerId, gameDuration)];
      nextGameId := nextGameId + 1;
      UpdatePlayerStats(player1Id, player1Score, player1Id == winnerId);
      UpdatePlayerStats(player2Id, player2Score, player2Id == winnerId);
      assert Snapshot() == saved;
    }

    method UpdatePlayerStats(playerId: int, score: int, isWinner: bool)
      modifies this`players
      ensures players == UpdateStats(old(players), playerId, score, isWinner)
    {
      players := UpdateStats(players, playerId, score, isWinner);
    }
  }
}
