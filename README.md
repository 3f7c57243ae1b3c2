# T-Rex multiplayer server, modelled in Dafny

This project models the core of the T-Rex multiplayer game server, written in C#. Two
clients that have chosen a nickname join a matchmaking queue. The server pairs the two
oldest into a game room and sends both the same obstacle map. It relays each player's
position to the other. When one player dies, it saves the result to a MySQL store of
players and game records.

The Dafny modules follow the program's structure:

- `DotNet` (dotnet.dfy) writes out the .NET library behaviour the code relies on:
  - 32-bit `int` and its unchecked wrap-around;
  - `int.Parse` and `Int32.ToString`;
  - `bool.Parse` and `Boolean.ToString`;
  - `String.Split(char)` and `String.Join`;
  - `Char.IsWhiteSpace`;
  - `String.Length` in UTF-16 code units;
  - `List<T>.Remove`.
- `Shared` (shared.dfy) is the wire protocol of TRexShared/NetworkMessage.cs:
  - the `MessageType` ordinals;
  - the frame: the ordinal, a bar (`|`), then the payload;
  - the comma-separated position, obstacle and result records;
  - the `;`-joined obstacle map, whose two array loops are methods over arrays.

  A C# call that can return an object, return null or throw yields an
  `Outcome` (`Value`, `Null` or `Exception`).
- `Store` (store.dfy) is TRexServer/DatabaseManager.cs:
  - the `players` and `game_records` tables as sequences, with their AUTO_INCREMENT
    counters and the schema's invariants;
  - a `DatabaseManager` class whose methods change the tables;
  - the three selections as pure functions (stats by name, leaderboard, recent games).
- `Server` (server.dfy) is TRexServer/Program.cs, with one class per entity:
  - `TRexServer` holds the queue and the room list;
  - `ClientHandler` holds the per-client state and an `outbox` of the messages written
    to its stream;
  - `GameRoom` holds the two players and the active flag.

  Each lock-protected operation is one method. Each effect on the shared state is
  stated once, as a two-state predicate (`Queued`, `NicknameSet`, `Relayed`, `Died`,
  `Left`, `Ended`, `Processed`, `Disconnected`, `Handled`). The methods' `ensures`
  clauses use these predicates.

Some behaviour of the code is easy to miss, and the model keeps it as written:

- Any int is accepted as the tag of a frame, including values that name no message
  type. Such a message is ignored.
- A frame whose tag is not an int makes `int.Parse` throw. That ends the client's
  read loop and disconnects the client; the frame is not just dropped.
- A name that is already taken is not rejected. Its existing id is reused, and
  `NicknameDuplicate` is never sent. No `GameResult` message is ever sent either.
- A `PlayerDied` score that is not an int clears the room's active flag and then
  throws. The dying player is disconnected. The opponent gets no message, and no
  record is saved.
- The survivor is recorded with the dying player's score plus 10, in unchecked
  32-bit arithmetic. For a reported score above 2147483637 the sum wraps to a negative
  number. The game is then recorded as won by the player who died
  (`Server.SurvivorRecordedAsWinner`, `Server.OverflowRecordsLoserAsWinner`).
- `AddToQueue` does not check whether the client is already in a room. A client in a
  running game that sends `JoinQueue` or `RequestRematch` is queued. It can then be
  matched into a second room while the first room still lists it as a player.

The model takes these inputs as parameters:

- the random obstacle offsets (`offsets`, three draws in 500..799);
- the game duration the clock would give (`gameDuration`);
- whether the store's connection fails (`dbFails`);
- the frames a client's reads return (`frames`).

## Model

| member | source | states |
|---|---|---|
| DotNet.Wrap32 | TRexServer/Program.cs:540 | unchecked `int` addition: the result is congruent to the exact sum modulo 2^32 and equals it when the sum is in range |
| DotNet.Wrap32Above | TRexServer/Program.cs:540 | a sum past the Int32 maximum, by less than 2^32, comes out 2^32 lower, that is negative |
| DotNet.NatToStringValue | TRexShared/NetworkMessage.cs:45 | the decimal text of a number reads back as that number |
| DotNet.Int32ToString | TRexShared/NetworkMessage.cs:84 | the text of an int is non-empty and made of decimal digits, with a leading '-' only for a negative value |
| DotNet.ParseInt32 | TRexShared/NetworkMessage.cs:59 | `int.Parse`: a non-empty string of decimal digits whose value is within range parses to that value |
| DotNet.ParseInt32RejectsOther | TRexShared/NetworkMessage.cs:59 | a character that is neither a digit, nor white space, nor a sign, anywhere in the text, makes `int.Parse` throw |
| DotNet.ParseInt32ToString | TRexShared/NetworkMessage.cs:59 | `int.Parse(n.ToString()) == n` for every Int32, negative values included |
| DotNet.ParseBool | TRexShared/NetworkMessage.cs:97 | `bool.Parse` yields true exactly when the trimmed text is "true" in some letter case, false exactly when it is "false", and throws on any other text; it succeeds only on text at least as long as "True" |
| DotNet.BoolToString | TRexShared/NetworkMessage.cs:84 | the text of a bool is the word `bool.Parse` looks for, "true" or "false" up to letter case, and holds none of the protocol's separators (',', ';' and the bar) |
| DotNet.ParseBoolToString | TRexShared/NetworkMessage.cs:84-97 | `bool.Parse(b.ToString()) == b` |
| DotNet.Utf16Length | TRexServer/Program.cs:379 | `String.Length` is between the number of characters and twice that |
| DotNet.IsWhiteSpace | TRexServer/Program.cs:379 | a white-space character is never a digit, a sign, or one of the protocol's separators (',', ';' and the bar) |
| DotNet.IsNullOrWhiteSpaceTrim | TRexServer/Program.cs:379 | a string is blank exactly when trimming its white space leaves nothing, the empty string included |
| DotNet.Split | TRexShared/NetworkMessage.cs:54 | `Split` yields at least one piece, and no piece contains the separator |
| DotNet.SplitCount | TRexShared/NetworkMessage.cs:89-91 | `Split` yields one piece more than there are separators |
| DotNet.SplitFirst | TRexShared/NetworkMessage.cs:59 | the first piece is the text before the first separator |
| DotNet.SplitAt | TRexShared/NetworkMessage.cs:54 | text before the first separator is the first piece, followed by the pieces of what follows it |
| DotNet.Join | TRexShared/NetworkMessage.cs:162 | the joined text begins with the first piece |
| DotNet.SplitJoin | TRexShared/NetworkMessage.cs:162-170 | splitting joined pieces that do not contain the separator gives back the pieces |
| DotNet.JoinSplit | TRexShared/NetworkMessage.cs:162-170 | joining the pieces of a split gives back the text |
| DotNet.JoinWithout | TRexShared/NetworkMessage.cs:162 | a character in no piece, other than the separator, is not in the joined text |
| DotNet.RemoveFirst | TRexServer/Program.cs:247 | `List.Remove` shortens the list by one when the element is present and leaves it unchanged otherwise |
| DotNet.RemoveFirstSplice | TRexServer/Program.cs:247 | removal cuts out exactly the first occurrence and keeps the other entries in their order |
| DotNet.RemoveFirstMultiset | TRexServer/Program.cs:255 | removal takes away exactly one copy of the element |
| DotNet.RemoveFirstNoDup | TRexServer/Program.cs:247-255 | in a list without duplicates, removal leaves no copy behind, keeps every other entry and keeps the list free of duplicates |
| Shared.Ordinal | TRexShared/NetworkMessage.cs:6-25 | the enum's ordinals are 0..13 |
| Shared.TypeOf | TRexShared/NetworkMessage.cs:6-25 | an int names a message type exactly when it is in 0..13, and that type's ordinal is the int |
| Shared.Message | TRexShared/NetworkMessage.cs:35-39 | a message built from a type carries a tag that names that type, and the data given |
| Shared.SerializeMessage | TRexShared/NetworkMessage.cs:43-46 | a frame always contains the bar separator, so it is never empty |
| Shared.DeserializeMessage | TRexShared/NetworkMessage.cs:49-62 | decoding yields null exactly for the empty frame |
| Shared.DeserializeMessageFields | TRexShared/NetworkMessage.cs:49-62 | a non-empty frame decodes to the int before the first bar (any int) and the text between the first and second bar, or throws when the tag text is not an int |
| Shared.DeserializeMessageNoBar | TRexShared/NetworkMessage.cs:54-60 | a frame without a bar decodes with an empty payload, or throws when it is not an int |
| Shared.DeserializeSerialize | TRexShared/NetworkMessage.cs:43-61 | an encoded message decodes to its tag and the part of its payload before the first bar |
| Shared.MessageRoundTrip | TRexShared/NetworkMessage.cs:43-61 | every message whose payload has no bar decodes to itself |
| Shared.SerializePosition | TRexShared/NetworkMessage.cs:82-85 | a position record contains neither a bar nor ';' |
| Shared.PositionRoundTrip | TRexShared/NetworkMessage.cs:82-99 | every position record decodes to itself |
| Shared.DeserializePosition | TRexShared/NetworkMessage.cs:87-99 | decoding throws exactly when there are three fields and the first two are not both ints or the third is not a bool; a decoded position holds the values its first three fields parse to |
| Shared.PositionFromFields | TRexShared/NetworkMessage.cs:87-99 | data whose first three fields are a record's field texts decodes to that record |
| Shared.PositionIgnoresExtraFields | TRexShared/NetworkMessage.cs:87-99 | text after a third comma does not change the decoded position |
| Shared.PositionNullIffFewFields | TRexShared/NetworkMessage.cs:89-91 | position decoding yields null exactly when there are fewer than three fields |
| Shared.SerializeObstacle | TRexShared/NetworkMessage.cs:119-122 | an obstacle record is non-empty and contains neither a bar nor ';' |
| Shared.ObstacleRoundTrip | TRexShared/NetworkMessage.cs:119-136 | every obstacle record decodes to itself |
| Shared.DeserializeObstacle | TRexShared/NetworkMessage.cs:124-136 | decoding throws exactly when there are three fields and one of them is not an int; a decoded obstacle holds the values its first three fields parse to |
| Shared.ObstacleNullIffFewFields | TRexShared/NetworkMessage.cs:126-128 | obstacle decoding yields null exactly when there are fewer than three fields |
| Shared.SerializeResult | TRexShared/NetworkMessage.cs:197-200 | a result record contains neither a bar nor ';' |
| Shared.ResultRoundTrip | TRexShared/NetworkMessage.cs:197-214 | every result record decodes to itself |
| Shared.DeserializeResult | TRexShared/NetworkMessage.cs:202-214 | decoding throws exactly when there are three fields and the first is not a bool or one of the other two is not an int; a decoded result holds the values its first three fields parse to |
| Shared.ResultNullIffFewFields | TRexShared/NetworkMessage.cs:204-206 | result decoding yields null exactly when there are fewer than three fields |
| Shared.DecodePieces | TRexShared/NetworkMessage.cs:170-175 | a successful decoding has one entry per ';'-piece |
| Shared.DecodePiecesThrows | TRexShared/NetworkMessage.cs:172-175 | once a piece throws, the whole decoding throws |
| Shared.DecodePiecesThrowsIff | TRexShared/NetworkMessage.cs:170-176 | the map decoding never yields null, and throws exactly when some piece throws |
| Shared.DecodePiecesAll | TRexShared/NetworkMessage.cs:170-176 | pieces that all decode give one entry per piece, holding that piece's record |
| Shared.EncodeGameStart | TRexShared/NetworkMessage.cs:152-163 | the map encoding is never null, throws exactly when some entry is null, and its text never contains the bar, so it travels intact as a frame's payload |
| Shared.DecodeGameStart | TRexShared/NetworkMessage.cs:165-177 | the map decoding is never null, and a decoded map has one entry per ';'-separated record, none for "" |
| Shared.SerializeGameStart | TRexShared/NetworkMessage.cs:152-163 | the loop produces exactly the encoding of the array: "" for a null or empty array, an exception at a null entry, and the ';'-joined records otherwise |
| Shared.DeserializeGameStart | TRexShared/NetworkMessage.cs:165-177 | the loop fills a fresh array with exactly the decoding of the text; it throws exactly when that decoding does, and never yields null |
| Shared.GameStartEmpty | TRexShared/NetworkMessage.cs:154-155 | an empty map is sent as "", and "" is read back as an empty map |
| Shared.GameStartRoundTrip | TRexShared/NetworkMessage.cs:152-177 | a non-empty map encodes to its text, and the text decodes to as many entries, each equal to the obstacle sent |
| Store.FindByName | TRexServer/DatabaseManager.cs:85-94 | the lookup by name finds a row with that name, or reports none only when no row has it |
| Store.GetOrCreate | TRexServer/DatabaseManager.cs:76-111 | a failure gives -1 and leaves the tables as they were; otherwise player rows are only appended, at most one, and the game records do not change |
| Store.GetPlayerStats | TRexServer/DatabaseManager.cs:177-217 | the stats query yields a row with that name, and null exactly when no row has it |
| Store.GetPlayerStatsUnique | TRexServer/DatabaseManager.cs:185-206 | with names UNIQUE, the row returned is the one row of that name |
| Store.GetOrCreateKeepsValid | TRexServer/DatabaseManager.cs:76-111 | get-or-create keeps keys and names unique, the counters ahead of the ids, the foreign keys and the balanced statistics |
| Store.GetOrCreateExisting | TRexServer/DatabaseManager.cs:85-94 | an existing name gets back its own id, and the tables do not change |
| Store.GetOrCreateNew | TRexServer/DatabaseManager.cs:98-103 | a new name gets exactly one new zeroed row, whose positive id no other row has |
| Store.GetOrCreateAnswers | TRexServer/DatabaseManager.cs:76-104 | without a store failure the id returned is positive, and the table then holds it under exactly that name |
| Store.WinnerId | TRexServer/DatabaseManager.cs:122 | player 1 wins exactly with a strictly higher score, and a tie goes to player 2 |
| Store.UpdateStats | TRexServer/DatabaseManager.cs:156-174 | rows with another id are untouched; a row with the id keeps its id and name, has one more game and one more win or loss, and a highest score at least its old one and at least the new score |
| Store.UpdateStatsKeeps | TRexServer/DatabaseManager.cs:158-164 | the statistics update keeps every row's id and name and keeps games equal to wins plus losses |
| Store.SameKeysKeepsValid | TRexServer/DatabaseManager.cs:156-174 | new statistics with the same ids and names and balanced rows keep the tables valid |
| Store.SaveResult | TRexServer/DatabaseManager.cs:114-154 | game records are only appended, at most one; the players table keeps its length and its id counter |
| Store.SaveResultKeepsValid | TRexServer/DatabaseManager.cs:114-174 | saving a result keeps every schema invariant, for any ids, including two equal ones |
| Store.SaveResultUnknownPlayer | TRexServer/DatabaseManager.cs:130-153 | an id with no row violates the foreign key, and nothing is written |
| Store.SaveResultEffect | TRexServer/DatabaseManager.cs:114-174 | for two known, different players: exactly one record carrying the winner is appended; each player has one more game, the winner one more win, the other one more loss, the highest score the larger of old and new; no other row changes |
| Store.SaveResultSamePlayer | TRexServer/DatabaseManager.cs:114-174 | for two seats with the same known id (two clients that chose the same nickname): exactly one record is appended with that id as winner; its row gets two more games, both wins, and the largest of the old highest score and the two scores; no other row changes |
| Store.SaveResultHighestScoreMonotone | TRexServer/DatabaseManager.cs:163 | no row's highest score ever goes down |
| Store.Eligible | TRexServer/DatabaseManager.cs:234 | the rows kept are exactly those with at least one game |
| Store.InsertSorted | TRexServer/DatabaseManager.cs:235 | inserting into a list in leaderboard order keeps it in that order and adds exactly that row |
| Store.SortByRankSorted | TRexServer/DatabaseManager.cs:235 | the rows come out in leaderboard order (wins descending, then highest score descending) and are a permutation of the input |
| Store.GetLeaderboard | TRexServer/DatabaseManager.cs:221-266 | at most `limit` rows, each a row with a game, in leaderboard order; a negative limit gives an empty list |
| Store.LeaderboardTopK | TRexServer/DatabaseManager.cs:231-236 | the leaderboard is a top-k selection: with the rows it leaves out it is exactly the rows with a game, every row shown ranks at or above every row left out, and rows are left out only when the list is full |
| Store.NewestFirst | TRexServer/DatabaseManager.cs:287 | the records kept are exactly those involving the player |
| Store.NewestFirstDecreasing | TRexServer/DatabaseManager.cs:288 | the records involving the player come with their ids decreasing |
| Store.GetRecentGames | TRexServer/DatabaseManager.cs:269-323 | at most `limit` records, each involving the player; a negative limit gives an empty list |
| Store.RecentGamesNewestFirst | TRexServer/DatabaseManager.cs:279-289 | the recent games come newest first, and a record involving the player is left out only when the list is full of newer records |
| Store.DatabaseManager.constructor | TRexServer/DatabaseManager.cs:12-73 | the tables are created only if missing, so the store opens on the rows it already holds |
| Store.DatabaseManager.GetOrCreatePlayer | TRexServer/DatabaseManager.cs:76-111 | the id and the new tables are those of get-or-create (-1 with no change on a failure), and the tables stay valid |
| Store.DatabaseManager.SaveGameResult | TRexServer/DatabaseManager.cs:114-154 | the new tables are those of saving the result, and they stay valid |
| Store.DatabaseManager.UpdatePlayerStats | TRexServer/DatabaseManager.cs:156-174 | the rows with the id get one statistics update and no other row changes |
| Server.Utf16LengthBmp | TRexServer/Program.cs:379 | for text in the Basic Multilingual Plane, `Length` counts characters |
| Server.NicknameOk | TRexServer/Program.cs:379 | an accepted nickname has 1 to 10 characters |
| Server.NicknameOkIff | TRexServer/Program.cs:379 | a nickname passes the check exactly when it has a non-white-space character and 2 to 10 code units (2 to 10 characters in the Basic Multilingual Plane) |
| Server.GameStartFrameRoundTrip | TRexServer/Program.cs:479-484 | the GameStart frame both players get decodes to the message sent, and its payload to exactly the generated map |
| Server.RecordedScores | TRexServer/Program.cs:540-544 | the seat of the player who died gets the reported score; the other seat gets that score plus 10, or, above 2147483637, plus 10 minus 2^32 |
| Server.SurvivorRecordedAsWinner | TRexServer/Program.cs:540-544 | the surviving player is recorded as the winner exactly when the reported score is at most 2147483637, so that adding 10 does not wrap |
| Server.OverflowRecordsLoserAsWinner | TRexServer/Program.cs:540-544 | a death reported at 2147483640 records the survivor at -2147483646, and the player who died as the winner |
| Server.TRexServer.constructor | TRexServer/Program.cs:24-31 | a new server has an empty queue and no rooms, on the store it is given |
| Server.TRexServer.AddToQueue | TRexServer/Program.cs:228-241 | a client of this server not yet waiting joins the end of the queue and is sent WaitingForMatch; a waiting client changes nothing |
| Server.TRexServer.RemoveFromQueue | TRexServer/Program.cs:243-249 | the queue loses the client's entry, and only that entry; a missing client changes nothing |
| Server.TRexServer.RemoveRoom | TRexServer/Program.cs:251-258 | the room list loses that room's entry, and only that entry |
| Server.TRexServer.MatchStep | TRexServer/Program.cs:197-216 | with two or more waiting, the first two, always different clients, leave the queue for a fresh active room that is listed; both are sent MatchFound and then the same GameStart map, and a client that was valid stays valid in its new room of this server. With fewer waiting, nothing changes |
| Server.ClientHandler.constructor | TRexServer/Program.cs:276-289 | a new client is connected, has id -1 and no name, and is in no room |
| Server.ClientHandler.SendMessage | TRexServer/Program.cs:403-419 | the message is written while the socket is open, and nothing is written otherwise |
| Server.ClientHandler.SetPlayerNickname | TRexServer/Program.cs:375-401 | a name failing the check gets a ConnectionError and changes nothing; otherwise the store's get-or-create runs: on -1 the client gets a ConnectionError and keeps its identity, and on success it takes the id and name and gets NicknameAccepted |
| Server.ClientHandler.ProcessMessage | TRexServer/Program.cs:337-373 | the effect by message type: nickname, enqueue only with an id above 0, relay and death through the room; a type with no case changes nothing; it throws exactly for a non-int score in an active room |
| Server.ClientHandler.ReportDeath | TRexServer/Program.cs:361-363 | without a room nothing changes; in a room the death goes to the room's PlayerDied, and it throws exactly for a non-int score in an active room |
| Server.ClientHandler.Disconnect | TRexServer/Program.cs:421-438 | only the first call acts: the client leaves the queue, its room reacts as to a disconnect, and the socket is closed |
| Server.ClientHandler.Receive | TRexServer/Program.cs:298-323 | one read: an empty frame changes nothing, a frame whose tag is not an int disconnects the client, and a decoded message is handled |
| Server.ClientHandler.Handle | TRexServer/Program.cs:318-334 | a handler that throws ends the loop and disconnects the client: the room is dropped with no message to anyone and no record; any other message is processed and the client stays connected |
| Server.ClientHandler.HandleClient | TRexServer/Program.cs:291-335 | however the read loop ends, the client is left disconnected and closed, out of the queue and in no room |
| Server.GameRoom.constructor | TRexServer/Program.cs:455-465 | both players' current room is the new, not yet active room |
| Server.GameRoom.StartGame | TRexServer/Program.cs:467-487 | the room becomes active; each player is sent MatchFound and then GameStart with the same map text |
| Server.GameRoom.GenerateObstacleMap | TRexServer/Program.cs:489-501 | a fresh array of exactly three obstacles (1200, offset i, i) |
| Server.GameRoom.Opponent | TRexServer/Program.cs:508 | for a player of the room the result is the other player, and it differs from the sender whenever the room pairs two different clients |
| Server.GameRoom.RelayPosition | TRexServer/Program.cs:503-510 | in an active room the payload goes, unchanged, to the sender's opponent only; otherwise nothing is sent |
| Server.GameRoom.PlayerDied | TRexServer/Program.cs:512-565 | outside a game nothing happens; in a game it stops, and a non-int score throws with nothing else done; otherwise the opponent gets the score text, exactly one result is saved with the recorded scores, and the room ends |
| Server.GameRoom.PlayerDisconnected | TRexServer/Program.cs:567-585 | the game stops; in a running game the other player is told the opponent left; the room ends either way and nothing is saved |
| Server.GameRoom.EndGame | TRexServer/Program.cs:587-592 | both players leave the room, and the server's list loses the room |

## Left out

- Sockets, streams and threads are not modelled: `TcpListener`, `AcceptClients`, thread start-up, the `lock` and `Thread.Sleep`. Each lock-protected step is one atomic method, and races between two clients' threads are not modelled.
- Framing: each `Read` is taken to return exactly one whole frame, as a string. UTF-8 decoding and the 1024-byte buffer are left out.
- `SendMessage`'s failure path (an exception on write, which disconnects the client) is not modelled. A send appends to the outbox while the socket is open.
- Server.TRexServer.MatchStep: models one pass of the `ProcessMatching` polling loop, not the endless loop itself, nor the exceptions it swallows.
- Randomness and the clock are parameters: the three `rand.Next(500, 800)` draws and the game duration. `gameStartTime` and the room's `RoomId` (a random GUID) are left out.
- The console: `Start`, `ProcessCommand`, `ShowPlayerStats`, `ShowLeaderboard`, `Stop`, and all logging.
- The MySQL driver and setup: connection strings, the DDL, `created_at`/`last_played`/`played_at` timestamps, the `JOIN` that adds player names to recent games, and `PlayerStats.WinRate` (a double) with the `ToString` formatting.
- Store.DatabaseManager.GetOrCreatePlayer: a driver failure is the parameter `fails`. It is the only store failure modelled; lookups and `SaveGameResult` do not fail, except through the foreign-key check.
- Store.DatabaseManager.SaveGameResult: no partial write is modelled. A failure after the INSERT but before the statistics updates would leave half a result.
- Store.GetLeaderboard: rows that tie on wins and highest score come in an order MySQL leaves unspecified. The model fixes one order, and the contracts only use the ranking.
- Store.GetRecentGames: `played_at DESC` is modelled as reverse insertion order (the AUTO_INCREMENT id). Records saved within the same second have no defined order in MySQL.
- Text comparison in the store is exact. MySQL's default collation also equates names that differ in letter case or trailing spaces.
- The counters and statistics are unbounded integers, so overflow of the INT columns is not modelled.
- DotNet.ParseInt32: models `NumberStyles.Integer` with the invariant culture. Trailing NUL characters, which .NET also accepts, are left out.
- DotNet.ParseBool: `bool.Parse` is case-insensitive only for ASCII letters.
- Null strings are not modelled: every string here is a decoded frame or a piece of one, and never null.
- The client's own `dbManager` field, assigned from the server's, is modelled as the server's `db`.
