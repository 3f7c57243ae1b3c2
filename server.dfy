/** The game server of TRexServer/Program.cs: the matchmaking queue, the rooms that pair
    two clients, and what each client's messages do to them. Every client, room and the
    server itself is an object whose fields the operations update; a method stands for
    one lock-protected or single-threaded step, and what a client is sent is kept in its
    `outbox`, in order. */
module Server {
  import opened Wrappers
  import opened DotNet
  import opened Shared
  import opened Store

  // The texts the server sends.
  const InvalidNicknameText: string := "올바른 닉네임을 입력해주세요 (2-10자)"
  const ServerErrorText: string := "서버 오류가 발생했습니다."
  const NicknameAcceptedText: string := "닉네임 승인"
  const WaitingText: string := "상대를 찾는 중입니다!"
  const MatchFoundText: string := "상대를 찾았습니다!"
  const OpponentLeftText: string := "상대방이 연결을 끊었습니다."

  // ---------------------------------------------------------------------------
  // Nicknames

  /** SetPlayerNickname's check: not blank, and 2 to 10 UTF-16 code units long. An
      accepted name has 1 to 10 characters. */
  predicate NicknameOk(nickname: string)
    ensures NicknameOk(nickname) ==> 1 <= |nickname| <= 10
  {
    !IsNullOrWhiteSpace(nickname) && 2 <= Utf16Length(nickname) <= 10
  }

  /** Outside the supplementary planes the length limit is a limit on characters. */
  lemma {:induction false} Utf16LengthBmp(s: string)
    requires forall i :: 0 <= i < |s| ==> s[i] as int < 0x1_0000
    ensures Utf16Length(s) == |s|
  {
    if |s| > 0 {
      Utf16LengthBmp(s[1..]);
    }
  }

  /** A nickname is accepted exactly when it has a character that is not white space
      and 2 to 10 code units; for text in the Basic Multilingual Plane, 2 to 10
      characters. */
  lemma NicknameOkIff(nickname: string)
    ensures NicknameOk(nickname) <==>
              (exists i :: 0 <= i < |nickname| && !IsWhiteSpace(nickname[i])) && 2 <= Utf16Length(nickname) <= 10
    ensures (forall i :: 0 <= i < |nickname| ==> nickname[i] as int < 0x1_0000) ==>
              (NicknameOk(nickname) <==> !IsNullOrWhiteSpace(nickname) && 2 <= |nickname| <= 10)
  {
    if forall i :: 0 <= i < |nickname| ==> nickname[i] as int < 0x1_0000 {
      Utf16LengthBmp(nickname);
    }
  }

  // ---------------------------------------------------------------------------
  // The obstacle map

  /** Three draws of `rand.Next(500, 800)`. */
  predicate ValidOffsets(offsets: seq<int>)
  {
    |offsets| == 3 && forall i :: 0 <= i < 3 ==> 500 <= offsets[i] < 800
  }

  /** The map GenerateObstacleMap builds: obstacle i starts at 1200 with the i-th draw as
      its offset. */
  function ObstacleMap(offsets: seq<int>): seq<ObstacleData>
    requires ValidOffsets(offsets)
  {
    seq(3, i requires 0 <= i < 3 => ObstacleData(1200, offsets[i] as Int32, i as Int32))
  }

  /** The payload of the GameStart message. */
  function StartText(offsets: seq<int>): string
    requires ValidOffsets(offsets)
  {
    MapText(ObstacleMap(offsets))
  }

  /** The GameStart frame both players receive decodes to the message that was sent,
      and its payload to the very map the server generated. */
  lemma GameStartFrameRoundTrip(offsets: seq<int>)
    requires ValidOffsets(offsets)
    ensures var m := Message(GameStart, StartText(offsets));
            && DeserializeMessage(SerializeMessage(m)) == Value(m)
            && DecodeGameStart(m.data) == Value(Entries(ObstacleMap(offsets)))
  {
    var obstacles := ObstacleMap(offsets);
    var texts := seq(|obstacles|, i requires 0 <= i < |obstacles| => SerializeObstacle(obstacles[i]));
    JoinWithout(texts, ';', '|');
    MessageRoundTrip(Message(GameStart, StartText(offsets)));
    GameStartRoundTrip(obstacles);
  }

  // ---------------------------------------------------------------------------
  // The scores a death records

  /** The scores PlayerDied records for player 1 and player 2: the reported score for
      the seat of the player who died, and that score plus 10, in unchecked Int32
      arithmetic, for the other seat. */
  function RecordedScores(senderIsPlayer1: bool, senderIsPlayer2: bool, loserScore: Int32): (r: (Int32, Int32))
    ensures senderIsPlayer1 ==> r.0 == loserScore
    ensures senderIsPlayer2 ==> r.1 == loserScore
    ensures !senderIsPlayer1 ==> r.0 == if loserScore <= MaxInt32 - 10 then loserScore + 10 else loserScore + 10 - Modulus32
    ensures !senderIsPlayer2 ==> r.1 == if loserScore <= MaxInt32 - 10 then loserScore + 10 else loserScore + 10 - Modulus32
  {
    var winnerScore := Wrap32(loserScore as int + 10);
    assert loserScore > MaxInt32 - 10 ==> winnerScore == loserScore + 10 - Modulus32 by {
      if loserScore > MaxInt32 - 10 {
        Wrap32Above(loserScore as int + 10);
      }
    }
    (if senderIsPlayer1 then loserScore else winnerScore, if senderIsPlayer2 then loserScore else winnerScore)
  }

  /** The player who is still alive is recorded as the winner exactly when the reported
      score leaves room for the added 10 below the Int32 maximum. */
  lemma SurvivorRecordedAsWinner(player1Id: int, player2Id: int, senderIsPlayer1: bool, loserScore: Int32)
    requires player1Id != player2Id
    ensures var scores := RecordedScores(senderIsPlayer1, !senderIsPlayer1, loserScore);
            var survivor := if senderIsPlayer1 then player2Id else player1Id;
            WinnerId(player1Id, player2Id, scores.0, scores.1) == survivor <==> loserScore <= MaxInt32 - 10
  {
    if loserScore > MaxInt32 - 10 {
      Wrap32Above(loserScore as int + 10);
    }
  }

  /** A death reported with score 2147483640 by player 1 wraps the survivor's score to
      -2147483646, and the game is recorded as won by the player who died. */
  lemma OverflowRecordsLoserAsWinner()
    ensures RecordedScores(true, false, 2147483640) == (2147483640, -2147483646)
    ensures WinnerId(1, 2, 2147483640, -2147483646) == 1
  {
    Wrap32Above(2147483650);
  }

  // ---------------------------------------------------------------------------
  // Effects, each stated once and used by every operation that has it

  /** The objects a room's operations may touch besides the room. */
  function Parts(r: GameRoom?): set<object>
  {
    if r == null then {} else {r, r.player1, r.player2, r.server}
  }

  twostate predicate ServerKept(s: TRexServer)
    reads s
  {
    s.waitingClients == old(s.waitingClients) && s.activeRooms == old(s.activeRooms)
  }

  twostate predicate IdentityKept(c: ClientHandler)
    reads c
  {
    c.playerId == old(c.playerId) && c.playerName == old(c.playerName)
  }

  /** The room's flag and both players' room references are as they were. */
  twostate predicate RoomStateKept(r: GameRoom?)
    reads Parts(r)
  {
    r != null ==>
      && r.isGameActive == old(r.isGameActive)
      && r.player1.currentRoom == old(r.player1.currentRoom)
      && r.player2.currentRoom == old(r.player2.currentRoom)
  }

  /** Nobody in the room other than `except` was sent anything. */
  twostate predicate PeersQuiet(r: GameRoom?, except: ClientHandler?)
    reads Parts(r)
  {
    r != null ==>
      && (r.player1 != except ==> r.player1.outbox == old(r.player1.outbox))
      && (r.player2 != except ==> r.player2.outbox == old(r.player2.outbox))
  }

  /** `c` received `m` iff `cond`, and nothing else. */
  twostate predicate SentIf(c: ClientHandler, cond: bool, m: NetworkMessage)
    reads c
  {
    c.outbox == old(c.outbox) + (if cond then old(c.Delivered(m)) else [])
  }

  /** AddToQueue: a client not yet waiting joins the end of the queue and is told so; a
      waiting client changes nothing. */
  twostate predicate Queued(s: TRexServer, c: ClientHandler)
    reads s, c
  {
    if old(c in s.waitingClients) then
      s.waitingClients == old(s.waitingClients) && c.outbox == old(c.outbox)
    else
      s.waitingClients == old(s.waitingClients) + [c] && SentIf(c, true, Message(WaitingForMatch, WaitingText))
  }

  /** SetPlayerNickname: a rejected name is answered with an error and changes nothing;
      otherwise the store looks the name up or inserts it, and the client takes the
      id, or reports the store's failure and keeps its old identity. */
  twostate predicate NicknameSet(c: ClientHandler, nickname: string, dbFails: bool)
    reads c, c.server.db
  {
    if !NicknameOk(nickname) then
      && unchanged(c.server.db) && IdentityKept(c)
      && SentIf(c, true, Message(ConnectionError, InvalidNicknameText))
    else
      var result := GetOrCreate(old(c.server.db.Snapshot()), nickname, dbFails);
      && c.server.db.Snapshot() == result.1
      && if result.0 == -1 then
           IdentityKept(c) && SentIf(c, true, Message(ConnectionError, ServerErrorText))
         else
           c.playerId == result.0 && c.playerName == nickname
           && SentIf(c, true, Message(NicknameAccepted, NicknameAcceptedText))
  }

  /** RelayPosition: during a game the position goes verbatim to the sender's opponent. */
  twostate predicate Relayed(r: GameRoom, sender: ClientHandler, positionData: string)
    reads Parts(r)
  {
    var m := Message(OpponentPosition, positionData);
    && SentIf(r.player1, r.isGameActive && r.Opponent(sender) == r.player1, m)
    && SentIf(r.player2, r.isGameActive && r.Opponent(sender) == r.player2, m)
  }

  /** EndGame: both players leave the room, and the server forgets it. */
  twostate predicate Ended(r: GameRoom)
    reads Parts(r)
  {
    && r.player1.currentRoom == null && r.player2.currentRoom == null
    && r.server.activeRooms == RemoveFirst(old(r.server.activeRooms), r)
  }

  /** PlayerDisconnected: the game stops, a running game's other player is told the
      opponent left, and the room ends either way. */
  twostate predicate Left(r: GameRoom, disconnected: ClientHandler)
    reads Parts(r)
  {
    var m := Message(ConnectionError, OpponentLeftText);
    && !r.isGameActive && Ended(r)
    && SentIf(r.player1, old(r.isGameActive) && r.Opponent(disconnected) == r.player1, m)
    && SentIf(r.player2, old(r.isGameActive) && r.Opponent(disconnected) == r.player2, m)
  }

  /** PlayerDied: outside a game nothing happens. In a game the game stops; a score that
      is not an int throws before anything else is done; otherwise the opponent is sent
      the score text, the result is saved with the recorded scores, and the room ends. */
  twostate predicate Died(r: GameRoom, sender: ClientHandler, scoreData: string, gameDuration: int, threw: bool)
    reads Parts(r), r.server.db
  {
    && !r.isGameActive
    && if !old(r.isGameActive) || ParseInt32(scoreData).None? then
         && threw == old(r.isGameActive)
         && unchanged(r.server.db) && r.server.activeRooms == old(r.server.activeRooms)
         && r.player1.currentRoom == old(r.player1.currentRoom) && r.player2.currentRoom == old(r.player2.currentRoom)
         && r.player1.outbox == old(r.player1.outbox) && r.player2.outbox == old(r.player2.outbox)
       else
         var scores := RecordedScores(sender == r.player1, sender == r.player2, ParseInt32(scoreData).value);
         var m := Message(OpponentDied, scoreData);
         && !threw
         && r.server.db.Snapshot() ==
              SaveResult(old(r.server.db.Snapshot()), old(r.player1.playerId), old(r.player2.playerId),
                         scores.0, scores.1, gameDuration)
         && Ended(r)
         && SentIf(r.player1, r.Opponent(sender) == r.player1, m)
         && SentIf(r.player2, r.Opponent(sender) == r.player2, m)
  }

  /** Nothing the client, the server, the store or the room hold has changed. */
  twostate predicate Quiet(c: ClientHandler, r: GameRoom?)
    reads c, c.server, c.server.db, Parts(r)
  {
    && IdentityKept(c) && c.outbox == old(c.outbox) && c.currentRoom == r
    && ServerKept(c.server) && unchanged(c.server.db)
    && RoomStateKept(r) && PeersQuiet(r, c)
  }

  /** What ProcessMessage does with a decoded message, by its type; `r` is the client's
      room when the message arrives. Types the server does not handle, and values that
      name no type, change nothing. */
  twostate predicate Processed(c: ClientHandler, r: GameRoom?, msg: NetworkMessage, dbFails: bool,
                               gameDuration: int, threw: bool)
    reads c, c.server, c.server.db, Parts(r), if r == null then {} else {r.server.db}
  {
    var t := TypeOf(msg.tag);
    if t == Some(SetNickname) then
      && !threw && NicknameSet(c, msg.data, dbFails)
      && ServerKept(c.server) && c.currentRoom == r && RoomStateKept(r) && PeersQuiet(r, c)
    else if t == Some(JoinQueue) || t == Some(RequestRematch) then
      && !threw && IdentityKept(c) && unchanged(c.server.db)
      && c.server.activeRooms == old(c.server.activeRooms)
      && c.currentRoom == r && RoomStateKept(r) && PeersQuiet(r, c)
      && if old(c.playerId) > 0 then Queued(c.server, c)
         else c.server.waitingClients == old(c.server.waitingClients) && c.outbox == old(c.outbox)
    else if t == Some(PlayerPosition) && r != null then
      && !threw && IdentityKept(c) && ServerKept(c.server) && unchanged(c.server.db)
      && c.currentRoom == r && RoomStateKept(r) && Relayed(r, c, msg.data)
    else if t == Some(PlayerDied) && r != null then
      && IdentityKept(c) && c.server.waitingClients == old(c.server.waitingClients)
      && Died(r, c, msg.data, gameDuration, threw)
    else
      !threw && Quiet(c, r)
  }

  /** Disconnect: only the first call acts. It takes the client off the queue, lets its
      room react, and closes the socket, after which nothing more is delivered. */
  twostate predicate Disconnected(c: ClientHandler, r: GameRoom?)
    reads c, c.server, Parts(r)
  {
    && !c.isConnected && !c.open && IdentityKept(c)
    && if !old(c.isConnected) then
         && ServerKept(c.server) && c.outbox == old(c.outbox) && c.currentRoom == r
         && RoomStateKept(r) && PeersQuiet(r, null)
       else
         && c.server.waitingClients == RemoveFirst(old(c.server.waitingClients), c)
         && if r == null then
              c.server.activeRooms == old(c.server.activeRooms) && c.outbox == old(c.outbox) && c.currentRoom == null
            else
              Left(r, c)
  }

  /** A PlayerDied message whose score is not an int, arriving during a game. */
  predicate Fatal(r: GameRoom?, msg: NetworkMessage)
    reads r
  {
    TypeOf(msg.tag) == Some(PlayerDied) && r != null && r.isGameActive && ParseInt32(msg.data).None?
  }

  /** A decoded message in HandleClient: a fatal one drops the room with no message to
      anyone and no record, and disconnects the client; any other is processed and the
      client stays connected. */
  twostate predicate Handled(c: ClientHandler, r: GameRoom?, msg: NetworkMessage, dbFails: bool, gameDuration: int)
    reads c, c.server, c.server.db, Parts(r), if r == null then {} else {r.server.db}
  {
    if old(Fatal(r, msg)) then
      && !c.isConnected && !c.open && IdentityKept(c) && unchanged(c.server.db)
      && c.server.waitingClients == RemoveFirst(old(c.server.waitingClients), c)
      && !r.isGameActive && Ended(r)
      && r.player1.outbox == old(r.player1.outbox) && r.player2.outbox == old(r.player2.outbox)
    else
      && Processed(c, r, msg, dbFails, gameDuration, false)
      && c.isConnected == old(c.isConnected) && c.open == old(c.open)
  }

  // ---------------------------------------------------------------------------
  // The server

  class TRexServer {
    const db: DatabaseManager
    var waitingClients: seq<ClientHandler>
    var activeRooms: seq<GameRoom>

    /** The queue holds a client at most once (AddToQueue checks), and only clients
        this server accepted; every room is listed at most once (rooms are new when
        listed). */
    predicate Valid()
      reads this
    {
      && NoDup(waitingClients) && NoDup(activeRooms)
      && forall c :: c in waitingClients ==> c.server == this
    }

    constructor (db: DatabaseManager)
      ensures this.db == db && waitingClients == [] && activeRooms == [] && Valid()
    {
      this.db := db;
      waitingClients, activeRooms := [], [];
    }

    /** The clients the next matching step pairs. */
    function Front(): set<ClientHandler>
      reads this
    {
      if |waitingClients| >= 2 then {waitingClients[0], waitingClients[1]} else {}
    }

    method AddToQueue(client: ClientHandler)
      requires Valid() && client.server == this
      modifies this`waitingClients, client`outbox
      ensures Valid() && Queued(this, client)
    {
      if client !in waitingClients {
        waitingClients := waitingClients + [client];
        client.SendMessage(Message(WaitingForMatch, WaitingText));
      }
    }

    method RemoveFromQueue(client: ClientHandler)
      requires Valid()
      modifies this`waitingClients
      ensures Valid() && client !in waitingClients
      ensures waitingClients == RemoveFirst(old(waitingClients), client)
    {
      RemoveFirstNoDup(waitingClients, client);
      waitingClients := RemoveFirst(waitingClients, client);
    }

    method RemoveRoom(room: GameRoom)
      requires Valid()
      modifies this`activeRooms
      ensures Valid() && room !in activeRooms
      ensures activeRooms == RemoveFirst(old(activeRooms), room)
    {
      RemoveFirstNoDup(activeRooms, room);
      activeRooms := RemoveFirst(activeRooms, room);
    }

    /** One pass of the matching loop: with two or more clients waiting, the first two
        leave the queue for a new room, which is listed and started. The two are always
        different clients, and both receive the same map. */
    method MatchStep(offsets: seq<int>) returns (room: GameRoom?)
      requires Valid() && ValidOffsets(offsets)
      modifies this`waitingClients, this`activeRooms, Front()`currentRoom, Front()`outbox
      ensures Valid()
      ensures old(|waitingClients|) < 2 ==> room == null && ServerKept(this)
      ensures old(|waitingClients|) >= 2 ==>
                var p1 := old(waitingClients[0]);
                var p2 := old(waitingClients[1]);
                && room != null && fresh(room)
                && room.player1 == p1 && room.player2 == p2 && room.server == this && p1 != p2
                && room.isGameActive
                && waitingClients == old(waitingClients[2..])
                && activeRooms == old(activeRooms) + [room]
                && p1.currentRoom == room && p2.currentRoom == room
                && (old(p1.Valid()) ==> p1.Valid()) && (old(p2.Valid()) ==> p2.Valid())
                && p1.outbox == old(p1.outbox) + old(p1.Delivered(Message(MatchFound, MatchFoundText)))
                                               + old(p1.Delivered(Message(GameStart, StartText(offsets))))
                && p2.outbox == old(p2.outbox) + old(p2.Delivered(Message(MatchFound, MatchFoundText)))
                                               + old(p2.Delivered(Message(GameStart, StartText(offsets))))
    {
      if |waitingClients| < 2 {
        return null;
      }
      var player1 := waitingClients[0];
      var player2 := waitingClients[1];
      waitingClients := waitingClients[2..];
      room := new GameRoom(player1, player2, this);
      activeRooms := activeRooms + [room];
      room.StartGame(offsets);
    }
  }

  // ---------------------------------------------------------------------------
  // A connected client

  class ClientHandler {
    const server: TRexServer
    var currentRoom: GameRoom?
    var isConnected: bool
    /** The socket has not been closed, so a write still reaches the client. */
    var open: bool
    var playerId: int
    var playerName: string
    /** The messages written to this client's stream, in order. */
    var outbox: seq<NetworkMessage>

    constructor (server: TRexServer)
      ensures this.server == server && currentRoom == null && isConnected && open
      ensures playerId == -1 && playerName == "" && outbox == []
    {
      this.server := server;
      currentRoom := null;
      isConnected, open := true, true;
      playerId, playerName := -1, "";
      outbox := [];
    }

    /** What SendMessage writes for `m`: the message while the socket is open. */
    function Delivered(m: NetworkMessage): seq<NetworkMessage>
      reads this
    {
      if open then [m] else []
    }

    /** The socket is closed only by Disconnect, after the flag is cleared; a client's
        room belongs to its server and pairs it with a different client. */
    predicate Valid()
      reads this
    {
      && (!isConnected ==> !open)
      && (currentRoom != null ==>
            && currentRoom.server == server
            && currentRoom.player1 != currentRoom.player2
            && (this == currentRoom.player1 || this == currentRoom.player2))
    }

    function Rooms(): set<GameRoom>
      reads this
    {
      if currentRoom == null then {} else {currentRoom}
    }

    function Peers(): set<ClientHandler>
      reads this
    {
      if currentRoom == null then {} else {currentRoom.player1, currentRoom.player2}
    }

    method SendMessage(m: NetworkMessage)
      modifies this`outbox
      ensures SentIf(this, true, m)
    {
      if open {
        outbox := outbox + [m];
      }
    }

    method SetPlayerNickname(nickname: string, dbFails: bool)
      requires server.db.Valid()
      modifies this`playerId, this`playerName, this`outbox, server.db
      ensures server.db.Valid()
      ensures NicknameSet(this, nickname, dbFails)
      ensures NicknameOk(nickname) && !dbFails ==>
                && playerId > 0 && playerName == nickname
                && exists i :: 0 <= i < |server.db.players| &&
                     server.db.players[i].playerId == playerId && server.db.players[i].playerName == nickname
    {
      if IsNullOrWhiteSpace(nickname) || Utf16Length(nickname) < 2 || Utf16Length(nickname) > 10 {
        SendMessage(Message(ConnectionError, InvalidNicknameText));
        return;
      }
      if !dbFails {
        GetOrCreateAnswers(server.db.Snapshot(), nickname);
      }
      var id := server.db.GetOrCreatePlayer(nickname, dbFails);
      if id == -1 {
        SendMessage(Message(ConnectionError, ServerErrorText));
        return;
      }
      playerId := id;
      playerName := nickname;
      SendMessage(Message(NicknameAccepted, NicknameAcceptedText));
    }

    /** ProcessMessage; `threw` says the handler threw (PlayerDied's int.Parse). */
    method ProcessMessage(msg: NetworkMessage, dbFails: bool, gameDuration: int) returns (threw: bool)
      requires Valid() && server.Valid() && server.db.Valid()
      modifies this`playerId, this`playerName, this`outbox, server`waitingClients, server`activeRooms, server.db
      modifies Rooms()`isGameActive, Peers()`outbox, Peers()`currentRoom
      ensures Valid() && server.Valid() && server.db.Valid()
      ensures Processed(this, old(currentRoom), msg, dbFails, gameDuration, threw)
      ensures threw <==> old(Fatal(currentRoom, msg))
    {
      threw := false;
      var t := TypeOf(msg.tag);
      if t == Some(SetNickname) {
        SetPlayerNickname(msg.data, dbFails);
      } else if t == Some(JoinQueue) || t == Some(RequestRematch) {
        if playerId > 0 {
          server.AddToQueue(this);
        }
      } else if t == Some(PlayerPosition) {
        if currentRoom != null {
          currentRoom.RelayPosition(this, msg.data);
        }
      } else if t == Some(PlayerDied) {
        threw := ReportDeath(msg, dbFails, gameDuration);
      }
    }

    /** ProcessMessage's PlayerDied case: the client's room, if it has one, takes the
        death; `threw` says PlayerDied's int.Parse threw. */
    method ReportDeath(msg: NetworkMessage, dbFails: bool, gameDuration: int) returns (threw: bool)
      requires TypeOf(msg.tag) == Some(PlayerDied)
      requires Valid() && server.Valid() && server.db.Valid()
      modifies server`activeRooms, server.db
      modifies Rooms()`isGameActive, Peers()`outbox, Peers()`currentRoom
      ensures Valid() && server.Valid() && server.db.Valid()
      ensures Processed(this, old(currentRoom), msg, dbFails, gameDuration, threw)
      ensures threw <==> old(Fatal(currentRoom, msg))
    {
      threw := false;
      if currentRoom != null {
        threw := currentRoom.PlayerDied(this, msg.data, gameDuration);
      }
    }

    method Disconnect()
      requires Valid() && server.Valid()
      modifies this`isConnected, this`open, server`waitingClients, server`activeRooms
      modifies Rooms()`isGameActive, Peers()`outbox, Peers()`currentRoom
      ensures Valid() && server.Valid()
      ensures old(isConnected) ==> this !in server.waitingClients && currentRoom == null
      ensures Disconnected(this, old(currentRoom))
    {
      if !isConnected {
        return;
      }
      isConnected := false;
      server.RemoveFromQueue(this);
      if currentRoom != null {
        currentRoom.PlayerDisconnected(this);
      }
      open := false;
    }

    /** One iteration of HandleClient's loop, for a read that returned `frame`: a frame
        whose type does not parse ends the loop, and so does a handler that throws; the
        `finally` then disconnects the client. */
    method Receive(frame: string, dbFails: bool, gameDuration: int)
      requires Valid() && server.Valid() && server.db.Valid() && isConnected
      modifies this`isConnected, this`open, this`playerId, this`playerName, this`outbox
      modifies server`waitingClients, server`activeRooms, server.db
      modifies Rooms()`isGameActive, Peers()`outbox, Peers()`currentRoom
      ensures Valid() && server.Valid() && server.db.Valid()
      ensures !isConnected ==> currentRoom == null && this !in server.waitingClients
      ensures DeserializeMessage(frame).Null? ==> Quiet(this, old(currentRoom)) && isConnected && open == old(open)
      ensures DeserializeMessage(frame).Exception? ==>
                Disconnected(this, old(currentRoom)) && unchanged(server.db)
      ensures DeserializeMessage(frame).Value? ==>
                Handled(this, old(currentRoom), DeserializeMessage(frame).value, dbFails, gameDuration)
    {
      var decoded := DeserializeMessage(frame);
      if decoded.Exception? {
        Disconnect();
        return;
      }
      if decoded.Null? {
        return;
      }
      Handle(decoded.value, dbFails, gameDuration);
    }

    /** A decoded message inside HandleClient's `try`: a handler that throws leaves the
        loop, and the `finally` disconnects the client. */
    method Handle(msg: NetworkMessage, dbFails: bool, gameDuration: int)
      requires Valid() && server.Valid() && server.db.Valid() && isConnected
      modifies this`isConnected, this`open, this`playerId, this`playerName, this`outbox
      modifies server`waitingClients, server`activeRooms, server.db
      modifies Rooms()`isGameActive, Peers()`outbox, Peers()`currentRoom
      ensures Valid() && server.Valid() && server.db.Valid()
      ensures !isConnected ==> currentRoom == null && this !in server.waitingClients
      ensures Handled(this, old(currentRoom), msg, dbFails, gameDuration)
    {
      var threw := ProcessMessage(msg, dbFails, gameDuration);
      if threw {
        Disconnect();
      }
    }

    /** HandleClient: reads `frames` one after another while the client is connected;
        a read of zero bytes (the end of `frames`) ends the loop as well, and the client is
        then disconnected. `handled` is the number of frames read. However the loop ends,
        the client is left closed, out of the queue and out of any room. */
    method HandleClient(frames: seq<string>, dbFails: seq<bool>, gameDurations: seq<int>) returns (handled: nat)
      requires |dbFails| == |frames| && |gameDurations| == |frames|
      requires Valid() && server.Valid() && server.db.Valid() && isConnected
      modifies this`isConnected, this`open, this`playerId, this`playerName, this`outbox
      modifies server`waitingClients, server`activeRooms, server.db
      modifies Rooms()`isGameActive, Peers()`outbox, Peers()`currentRoom
      ensures Valid() && server.Valid() && server.db.Valid()
      ensures handled <= |frames|
      ensures !isConnected && !open && currentRoom == null && this !in server.waitingClients
    {
      handled := 0;
      while handled < |frames| && isConnected
        invariant handled <= |frames|
        invariant Valid() && server.Valid() && server.db.Valid()
        invariant currentRoom == null || currentRoom == old(currentRoom)
        invariant !isConnected ==> currentRoom == null && this !in server.waitingClients
        decreases |frames| - handled
      {
        Receive(frames[handled], dbFails[handled], gameDurations[handled]);
        handled := handled + 1;
      }
      if isConnected {
        Disconnect();
      }
    }
  }

  // ---------------------------------------------------------------------------
  // A game room

  class GameRoom {
    const player1: ClientHandler
    const player2: ClientHandler
    const server: TRexServer
    var isGameActive: bool

    /** The matcher pairs two different clients. */
    predicate Valid()
    {
      player1 != player2
    }

    constructor (p1: ClientHandler, p2: ClientHandler, server: TRexServer)
      modifies p1`currentRoom, p2`currentRoom
      ensures player1 == p1 && player2 == p2 && this.server == server && !isGameActive
      ensures p1.currentRoom == this && p2.currentRoom == this
    {
      player1, player2 := p1, p2;
      this.server := server;
      isGameActive := false;
      new;
      p1.currentRoom := this;
      p2.currentRoom := this;
    }

    /** The other player of the room; any client that is not player 1 is answered
        with player 1. */
    function Opponent(c: ClientHandler): (o: ClientHandler)
      ensures c == player1 || c == player2 ==> {c, o} == {player1, player2}
      ensures c == player1 || c == player2 ==> (o == c <==> player1 == player2)
    {
      if c == player1 then player2 else player1
    }

    method StartGame(offsets: seq<int>)
      requires Valid() && ValidOffsets(offsets)
      modifies this`isGameActive, player1`outbox, player2`outbox
      ensures isGameActive
      ensures player1.outbox == old(player1.outbox) + player1.Delivered(Message(MatchFound, MatchFoundText))
                                                    + player1.Delivered(Message(GameStart, StartText(offsets)))
      ensures player2.outbox == old(player2.outbox) + player2.Delivered(Message(MatchFound, MatchFoundText))
                                                    + player2.Delivered(Message(GameStart, StartText(offsets)))
    {
      isGameActive := true;
      player1.SendMessage(Message(MatchFound, MatchFoundText));
      player2.SendMessage(Message(MatchFound, MatchFoundText));
      var obstacles := GenerateObstacleMap(offsets);
      var mapData := SerializeGameStart(obstacles);
      GameStartRoundTrip(ObstacleMap(offsets));
      assert mapData == Value(StartText(offsets));
      player1.SendMessage(Message(GameStart, mapData.value));
      player2.SendMessage(Message(GameStart, mapData.value));
    }

    /** Builds the three obstacles in a loop, then copies them to an array. */
    method GenerateObstacleMap(offsets: seq<int>) returns (obstacles: array<Option<ObstacleData>>)
      requires ValidOffsets(offsets)
      ensures fresh(obstacles) && obstacles[..] == Entries(ObstacleMap(offsets))
    {
      var list: seq<ObstacleData> := [];
      for i := 0 to 3
        invariant list == ObstacleMap(offsets)[..i]
      {
        list := list + [ObstacleData(1200, offsets[i] as Int32, i as Int32)];
      }
      obstacles := new Option<ObstacleData>[3](k requires 0 <= k < 3 => Some(list[k]));
      assert obstacles[..] == Entries(ObstacleMap(offsets));
    }

    method RelayPosition(sender: ClientHandler, positionData: string)
      requires Valid()
      modifies player1`outbox, player2`outbox
      ensures Relayed(this, sender, positionData)
    {
      if !isGameActive {
        return;
      }
      var opponent := Opponent(sender);
      opponent.SendMessage(Message(OpponentPosition, positionData));
    }

    method PlayerDied(sender: ClientHandler, scoreData: string, gameDuration: int) returns (threw: bool)
      requires Valid() && server.Valid() && server.db.Valid()
      modifies this`isGameActive, player1`outbox, player2`outbox, player1`currentRoom, player2`currentRoom
      modifies server`activeRooms, server.db
      ensures server.Valid() && server.db.Valid()
      ensures Died(this, sender, scoreData, gameDuration, threw)
    {
      threw := false;
      if !isGameActive {
        return;
      }
      isGameActive := false;
      var parsed := ParseInt32(scoreData);
      if parsed.None? {
        threw := true;
        return;
      }
      var loserScore := parsed.value;
      var winner := Opponent(sender);
      winner.SendMessage(Message(OpponentDied, scoreData));
      var scores := RecordedScores(sender == player1, sender == player2, loserScore);
      server.db.SaveGameResult(player1.playerId, player2.playerId, scores.0, scores.1, gameDuration);
      EndGame();
    }

    method PlayerDisconnected(disconnected: ClientHandler)
      requires Valid() && server.Valid()
      modifies this`isGameActive, player1`outbox, player2`outbox, player1`currentRoom, player2`currentRoom
      modifies server`activeRooms
      ensures server.Valid() && Left(this, disconnected)
    {
      if !isGameActive {
        EndGame();
        return;
      }
      isGameActive := false;
      var opponent := Opponent(disconnected);
      opponent.SendMessage(Message(ConnectionError, OpponentLeftText));
      EndGame();
    }

    method EndGame()
      requires server.Valid()
      modifies player1`currentRoom, player2`currentRoom, server`activeRooms
      ensures server.Valid() && this !in server.activeRooms
      ensures Ended(this)
    {
      player1.currentRoom := null;
      player2.currentRoom := null;
      server.RemoveRoom(this);
    }
  }
}
