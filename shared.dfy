/** The wire protocol shared by the game's server and client (TRexShared/NetworkMessage.cs).
    A frame is the message type's ordinal, a '|', and the payload; payloads are
    comma-separated records, and the obstacle map is ';'-joined obstacle records. */
module Shared {
  import opened Wrappers
  import opened DotNet

  datatype MessageType =
    // client to server
    | SetNickname | JoinQueue | PlayerPosition | PlayerDied | RequestRematch
    // server to client
    | NicknameAccepted | NicknameDuplicate | WaitingForMatch | MatchFound | GameStart
    | OpponentPosition | OpponentDied | GameResult | ConnectionError

  /** The number a message type is sent as: its position in the declaration. */
  function Ordinal(t: MessageType): (n: Int32)
    ensures 0 <= n <= 13
  {
    match t
    case SetNickname => 0
    case JoinQueue => 1
    case PlayerPosition => 2
    case PlayerDied => 3
    case RequestRematch => 4
    case NicknameAccepted => 5
    case NicknameDuplicate => 6
    case WaitingForMatch => 7
    case MatchFound => 8
    case GameStart => 9
    case OpponentPosition => 10
    case OpponentDied => 11
    case GameResult => 12
    case ConnectionError => 13
  }

  /** The named member of the enum with ordinal `n`, if there is one. */
  function TypeOf(n: Int32): (r: Option<MessageType>)
    ensures r.Some? <==> 0 <= n <= 13
    ensures r.Some? ==> Ordinal(r.value) == n
  {
    if n == 0 then Some(SetNickname)
    else if n == 1 then Some(JoinQueue)
    else if n == 2 then Some(PlayerPosition)
    else if n == 3 then Some(PlayerDied)
    else if n == 4 then Some(RequestRematch)
    else if n == 5 then Some(NicknameAccepted)
    else if n == 6 then Some(NicknameDuplicate)
    else if n == 7 then Some(WaitingForMatch)
    else if n == 8 then Some(MatchFound)
    else if n == 9 then Some(GameStart)
    else if n == 10 then Some(OpponentPosition)
    else if n == 11 then Some(OpponentDied)
    else if n == 12 then Some(GameResult)
    else if n == 13 then Some(ConnectionError)
    else None
  }

  /** What a C# call that returns a reference can do: return an object, return null,
      or throw. */
  datatype Outcome<+T> = Value(value: T) | Null | Exception

  /** A NetworkMessage. Its `Type` is an enum, but the cast from the parsed ordinal is
      unchecked, so a decoded message can carry any 32-bit value there. */
  datatype NetworkMessage = NetworkMessage(tag: Int32, data: string)

  /** `new NetworkMessage(type, data)`: a message whose tag names the type `t`. */
  function Message(t: MessageType, data: string): (m: NetworkMessage)
    ensures TypeOf(m.tag) == Some(t) && m.data == data
  {
    NetworkMessage(Ordinal(t), data)
  }

  // ---------------------------------------------------------------------------
  // Frames

  /** `NetworkMessage.Serialize`: the ordinal, a '|', then the payload. */
  function SerializeMessage(m: NetworkMessage): (s: string)
    ensures '|' in s && s != ""
  {
    var head := Int32ToString(m.tag);
    assert (head + "|" + m.data)[|head|] == '|';
    head + "|" + m.data
  }

  /** `NetworkMessage.Deserialize`: null for an empty frame; the text before the first
      '|' must parse as an int, otherwise int.Parse throws; the payload is the piece
      after the first '|', or "" when there is none. */
  function DeserializeMessage(s: string): (r: Outcome<NetworkMessage>)
    ensures r.Null? <==> s == ""
  {
    if s == "" then Null
    else
      var parts := Split(s, '|');
      match ParseInt32(parts[0])
      case None => Exception
      case Some(n) => Value(NetworkMessage(n, if |parts| > 1 then parts[1] else ""))
  }

  /** What decoding keeps of a frame: the tag is the text before the first '|'; the
      payload stops at the second '|' and is "" for a frame without any '|'. Any int
      is accepted as the tag, including those no MessageType member has. */
  lemma DeserializeMessageFields(s: string)
    requires s != ""
    ensures var head := Before(s, '|');
            DeserializeMessage(s) ==
              match ParseInt32(head)
              case None => Exception
              case Some(n) =>
                Value(NetworkMessage(n, if |head| < |s| then Before(s[|head| + 1..], '|') else ""))
  {
    var head := Before(s, '|');
    if |head| == |s| {
      assert head == s;
      SplitWithout(s, '|');
    } else {
      var rest := s[|head| + 1..];
      assert s == head + ['|'] + rest;
      SplitAt(head, '|', rest);
      SplitFirst(rest, '|');
    }
  }

  /** A frame with no '|' at all decodes to an empty payload; one whose tag text is not
      an int fails by throwing. */
  lemma DeserializeMessageNoBar(s: string)
    requires s != "" && '|' !in s
    ensures ParseInt32(s).Some? ==> DeserializeMessage(s) == Value(NetworkMessage(ParseInt32(s).value, ""))
    ensures ParseInt32(s).None? ==> DeserializeMessage(s) == Exception
  {
    DeserializeMessageFields(s);
    assert Before(s, '|') == s;
  }

  /** Decoding an encoded message restores its tag, and of its payload the part before
      the first '|'. */
  lemma DeserializeSerialize(m: NetworkMessage)
    ensures DeserializeMessage(SerializeMessage(m)) == Value(NetworkMessage(m.tag, Before(m.data, '|')))
  {
    var head := Int32ToString(m.tag);
    var s := SerializeMessage(m);
    assert '|' !in head;
    assert s == head + ['|'] + m.data;
    SplitAt(head, '|', m.data);
    SplitFirst(m.data, '|');
    ParseInt32ToString(m.tag);
  }

  /** The round trip: every message whose payload has no '|' decodes to itself, with
      the same tag (in the enum's range or not) and the same payload. */
  lemma MessageRoundTrip(m: NetworkMessage)
    requires '|' !in m.data
    ensures DeserializeMessage(SerializeMessage(m)) == Value(m)
  {
    DeserializeSerialize(m);
    assert Before(m.data, '|') == m.data;
  }

  // ---------------------------------------------------------------------------
  // Payload records

  /** The first three comma-separated fields, when there are at least three. */
  predicate HasThreeFields(data: string)
  {
    Count(data, ',') >= 2
  }

  datatype PlayerPositionData = PlayerPositionData(top: Int32, score: Int32, isJumping: bool)

  /** `PlayerPositionData.Serialize`: `top,score,isJumping`. */
  function SerializePosition(p: PlayerPositionData): (s: string)
    ensures '|' !in s && ';' !in s
  {
    Int32ToString(p.top) + "," + Int32ToString(p.score) + "," + BoolToString(p.isJumping)
  }

  /** `PlayerPositionData.Deserialize`: null with fewer than three fields; a field that
      does not parse throws; fields after the third are ignored. */
  function DeserializePosition(data: string): (r: Outcome<PlayerPositionData>)
    ensures var parts := Split(data, ',');
            r.Exception? <==>
              |parts| >= 3 && (ParseInt32(parts[0]).None? || ParseInt32(parts[1]).None? || ParseBool(parts[2]).None?)
    ensures var parts := Split(data, ',');
            r.Value? ==>
              && |parts| >= 3
              && ParseInt32(parts[0]) == Some(r.value.top) && ParseInt32(parts[1]) == Some(r.value.score)
              && ParseBool(parts[2]) == Some(r.value.isJumping)
  {
    var parts := Split(data, ',');
    if |parts| < 3 then Null
    else
      match (ParseInt32(parts[0]), ParseInt32(parts[1]), ParseBool(parts[2]))
      case (Some(top), Some(score), Some(jumping)) => Value(PlayerPositionData(top, score, jumping))
      case _ => Exception
  }

  lemma PositionRoundTrip(p: PlayerPositionData)
    ensures DeserializePosition(SerializePosition(p)) == Value(p)
  {
    var a, b, c := Int32ToString(p.top), Int32ToString(p.score), BoolToString(p.isJumping);
    Int32ToStringWithout(p.top, ',');
    Int32ToStringWithout(p.score, ',');
    SplitFields(a, b, c, ',');
    assert Split(SerializePosition(p), ',') == [a, b, c];
    PositionFromFields(SerializePosition(p), p);
  }

  /** Data whose first three fields are the texts of `p`'s fields decodes to `p`. */
  lemma PositionFromFields(data: string, p: PlayerPositionData)
    requires var parts := Split(data, ',');
             && |parts| >= 3 && parts[0] == Int32ToString(p.top) && parts[1] == Int32ToString(p.score)
             && parts[2] == BoolToString(p.isJumping)
    ensures DeserializePosition(data) == Value(p)
  {
    ParseInt32ToString(p.top);
    ParseInt32ToString(p.score);
    ParseBoolToString(p.isJumping);
  }

  /** Text after a third comma does not change what is decoded. */
  lemma PositionIgnoresExtraFields(p: PlayerPositionData, extra: string)
    ensures DeserializePosition(SerializePosition(p) + "," + extra) == Value(p)
  {
    var a, b, c := Int32ToString(p.top), Int32ToString(p.score), BoolToString(p.isJumping);
    Int32ToStringWithout(p.top, ',');
    Int32ToStringWithout(p.score, ',');
    SplitFieldsThenRest(a, b, c, extra, ',');
    assert Split(SerializePosition(p) + "," + extra, ',') == [a, b, c] + Split(extra, ',');
    PositionFromFields(SerializePosition(p) + "," + extra, p);
  }

  lemma PositionNullIffFewFields(data: string)
    ensures DeserializePosition(data).Null? <==> !HasThreeFields(data)
  {
    SplitCount(data, ',');
  }

  datatype ObstacleData = ObstacleData(initialPosition: Int32, randomOffset: Int32, obstacleIndex: Int32)

  /** `ObstacleData.Serialize`: `initialPosition,randomOffset,obstacleIndex`. */
  function SerializeObstacle(o: ObstacleData): (s: string)
    ensures '|' !in s && ';' !in s && s != ""
  {
    Int32ToString(o.initialPosition) + "," + Int32ToString(o.randomOffset) + "," + Int32ToString(o.obstacleIndex)
  }

  /** `ObstacleData.Deserialize`: null with fewer than three fields, throws when one of the
      first three is not an int. */
  function DeserializeObstacle(data: string): (r: Outcome<ObstacleData>)
    ensures var parts := Split(data, ',');
            r.Exception? <==>
              |parts| >= 3 && (ParseInt32(parts[0]).None? || ParseInt32(parts[1]).None? || ParseInt32(parts[2]).None?)
    ensures var parts := Split(data, ',');
            r.Value? ==>
              && |parts| >= 3
              && ParseInt32(parts[0]) == Some(r.value.initialPosition) && ParseInt32(parts[1]) == Some(r.value.randomOffset)
              && ParseInt32(parts[2]) == Some(r.value.obstacleIndex)
  {
    var parts := Split(data, ',');
    if |parts| < 3 then Null
    else
      match (ParseInt32(parts[0]), ParseInt32(parts[1]), ParseInt32(parts[2]))
      case (Some(position), Some(offset), Some(index)) => Value(ObstacleData(position, offset, index))
      case _ => Exception
  }

  lemma ObstacleRoundTrip(o: ObstacleData)
    ensures DeserializeObstacle(SerializeObstacle(o)) == Value(o)
  {
    var a, b, c := Int32ToString(o.initialPosition), Int32ToString(o.randomOffset), Int32ToString(o.obstacleIndex);
    Int32ToStringWithout(o.initialPosition, ',');
    Int32ToStringWithout(o.randomOffset, ',');
    Int32ToStringWithout(o.obstacleIndex, ',');
    SplitFields(a, b, c, ',');
    assert Split(SerializeObstacle(o), ',') == [a, b, c];
    ParseInt32ToString(o.initialPosition);
    ParseInt32ToString(o.randomOffset);
    ParseInt32ToString(o.obstacleIndex);
  }

  lemma ObstacleNullIffFewFields(data: string)
    ensures DeserializeObstacle(data).Null? <==> !HasThreeFields(data)
  {
    SplitCount(data, ',');
  }

  datatype GameResultData = GameResultData(isWinner: bool, yourScore: Int32, opponentScore: Int32)

  /** `GameResultData.Serialize`: `isWinner,yourScore,opponentScore`. */
  function SerializeResult(g: GameResultData): (s: string)
    ensures '|' !in s && ';' !in s
  {
    BoolToString(g.isWinner) + "," + Int32ToString(g.yourScore) + "," + Int32ToString(g.opponentScore)
  }

  function DeserializeResult(data: string): (r: Outcome<GameResultData>)
    ensures var parts := Split(data, ',');
            r.Exception? <==>
              |parts| >= 3 && (ParseBool(parts[0]).None? || ParseInt32(parts[1]).None? || ParseInt32(parts[2]).None?)
    ensures var parts := Split(data, ',');
            r.Value? ==>
              && |parts| >= 3
              && ParseBool(parts[0]) == Some(r.value.isWinner) && ParseInt32(parts[1]) == Some(r.value.yourScore)
              && ParseInt32(parts[2]) == Some(r.value.opponentScore)
  {
    var parts := Split(data, ',');
    if |parts| < 3 then Null
    else
      match (ParseBool(parts[0]), ParseInt32(parts[1]), ParseInt32(parts[2]))
      case (Some(winner), Some(yours), Some(theirs)) => Value(GameResultData(winner, yours, theirs))
      case _ => Exception
  }

  lemma ResultRoundTrip(g: GameResultData)
    ensures DeserializeResult(SerializeResult(g)) == Value(g)
  {
    var a, b, c := BoolToString(g.isWinner), Int32ToString(g.yourScore), Int32ToString(g.opponentScore);
    Int32ToStringWithout(g.yourScore, ',');
    Int32ToStringWithout(g.opponentScore, ',');
    SplitFields(a, b, c, ',');
    assert Split(SerializeResult(g), ',') == [a, b, c];
    ParseBoolToString(g.isWinner);
    ParseInt32ToString(g.yourScore);
    ParseInt32ToString(g.opponentScore);
  }

  lemma ResultNullIffFewFields(data: string)
    ensures DeserializeResult(data).Null? <==> !HasThreeFields(data)
  {
    SplitCount(data, ',');
  }

  // ---------------------------------------------------------------------------
  // The obstacle map (GameStartData)

  /** The text of a map of obstacles: their records joined with ';'. */
  function MapText(obstacles: seq<ObstacleData>): string
  {
    Join(seq(|obstacles|, i requires 0 <= i < |obstacles| => SerializeObstacle(obstacles[i])), ';')
  }

  /** What `GameStartData.Serialize` produces for the array `obstacles`, whose entries
      may be null: "" for an empty array, a NullReferenceException for a null entry, and
      otherwise the ';'-joined records. */
  function EncodeGameStart(obstacles: seq<Option<ObstacleData>>): (r: Outcome<string>)
    ensures !r.Null?
    ensures r.Exception? <==> exists i :: 0 <= i < |obstacles| && obstacles[i].None?
    ensures r.Value? ==> '|' !in r.value
  {
    if |obstacles| == 0 then Value("")
    else if exists i :: 0 <= i < |obstacles| && obstacles[i].None? then Exception
    else
      var texts := seq(|obstacles|, i requires 0 <= i < |obstacles| => SerializeObstacle(obstacles[i].value));
      JoinWithout(texts, ';', '|');
      Value(Join(texts, ';'))
  }

  /** An array entry as `ObstacleData.Deserialize` fills it: the record, or null. */
  function Entry<T>(o: Outcome<T>): Option<T>
  {
    if o.Value? then Some(o.value) else None
  }

  /** What `GameStartData.Deserialize` produces: an empty array for "", and otherwise
      one entry per ';'-piece, null where the piece has fewer than three fields; a piece
      with a field that is not an int throws, and so the whole decoding throws. */
  function DecodeGameStart(data: string): (r: Outcome<seq<Option<ObstacleData>>>)
    ensures !r.Null?
    ensures r.Value? ==> |r.value| == if data == "" then 0 else Count(data, ';') + 1
  {
    if data == "" then Value([])
    else
      DecodePiecesThrowsIff(Split(data, ';'), DeserializeObstacle);
      SplitCount(data, ';');
      DecodePieces(Split(data, ';'), DeserializeObstacle)
  }

  /** The pieces decoded by `f` in order, the array filled entry by entry. */
  function DecodePieces<T>(parts: seq<string>, f: string -> Outcome<T>): (r: Outcome<seq<Option<T>>>)
    ensures r.Value? ==> |r.value| == |parts|
  {
    if |parts| == 0 then Value([])
    else
      var init := DecodePieces(parts[..|parts| - 1], f);
      var last := f(parts[|parts| - 1]);
      if !init.Value? || last.Exception? then Exception
      else Value(init.value + [Entry(last)])
  }

  /** Once a prefix of the pieces throws, the whole decoding throws. */
  lemma {:induction false} DecodePiecesThrows<T>(parts: seq<string>, f: string -> Outcome<T>, n: nat)
    requires n <= |parts| && DecodePieces(parts[..n], f).Exception?
    ensures DecodePieces(parts, f).Exception?
    decreases |parts| - n
  {
    if n < |parts| {
      var longer := parts[..n + 1];
      assert longer[..n] == parts[..n];
      DecodePiecesThrows(parts, f, n + 1);
    } else {
      assert parts[..n] == parts;
    }
  }

  /** The decoding never yields null, and throws exactly when some piece does. */
  lemma {:induction false} DecodePiecesThrowsIff<T>(parts: seq<string>, f: string -> Outcome<T>)
    ensures !DecodePieces(parts, f).Null?
    ensures DecodePieces(parts, f).Exception? <==> exists i :: 0 <= i < |parts| && f(parts[i]).Exception?
  {
    if |parts| > 0 {
      var init := parts[..|parts| - 1];
      DecodePiecesThrowsIff(init, f);
      if exists i :: 0 <= i < |init| && f(init[i]).Exception? {
        var i :| 0 <= i < |init| && f(init[i]).Exception?;
        assert parts[i] == init[i];
      }
      if exists i :: 0 <= i < |parts| && f(parts[i]).Exception? {
        var i :| 0 <= i < |parts| && f(parts[i]).Exception?;
        if i < |init| {
          assert init[i] == parts[i];
        }
      }
    }
  }

  /** Pieces that all decode give one entry per piece, holding its record. */
  lemma {:induction false} DecodePiecesAll<T>(parts: seq<string>, f: string -> Outcome<T>, values: seq<T>)
    requires |parts| == |values|
    requires forall i :: 0 <= i < |parts| ==> f(parts[i]) == Value(values[i])
    ensures DecodePieces(parts, f) == Value(seq(|values|, i requires 0 <= i < |values| => Some(values[i])))
  {
    if |parts| > 0 {
      var n := |parts| - 1;
      DecodePiecesAll(parts[..n], f, values[..n]);
      assert f(parts[n]) == Value(values[n]);
      var all := seq(|values|, i requires 0 <= i < |values| => Some(values[i]));
      var init := seq(n, i requires 0 <= i < n => Some(values[..n][i]));
      assert all == init + [Some(values[n])];
    } else {
      assert seq(|values|, i requires 0 <= i < |values| => Some(values[i])) == [];
    }
  }

  /** The records as entries of an array that has no null in it. */
  function Entries(obstacles: seq<ObstacleData>): seq<Option<ObstacleData>>
  {
    seq(|obstacles|, i requires 0 <= i < |obstacles| => Some(obstacles[i]))
  }

  /** `GameStartData.Serialize`, filling an array of records in an indexed loop. */
  method SerializeGameStart(obstacles: array?<Option<ObstacleData>>) returns (r: Outcome<string>)
    ensures r == EncodeGameStart(if obstacles == null then [] else obstacles[..])
  {
    if obstacles == null || obstacles.Length == 0 {
      return Value("");
    }
    var serialized := new string[obstacles.Length];
    for i := 0 to obstacles.Length
      invariant forall k :: 0 <= k < i ==> obstacles[k].Some? && serialized[k] == SerializeObstacle(obstacles[k].value)
    {
      if obstacles[i].None? {
        // serializing a null entry throws
        return Exception;
      }
      serialized[i] := SerializeObstacle(obstacles[i].value);
    }
    ghost var s := obstacles[..];
    assert serialized[..] == seq(|s|, i requires 0 <= i < |s| => SerializeObstacle(s[i].value));
    return Value(Join(serialized[..], ';'));
  }

  /** `GameStartData.Deserialize`, filling a fresh array in an indexed loop. */
  method DeserializeGameStart(data: string) returns (r: Outcome<array<Option<ObstacleData>>>)
    ensures !r.Null?
    ensures r.Exception? <==> DecodeGameStart(data).Exception?
    ensures r.Value? ==> fresh(r.value) && r.value[..] == DecodeGameStart(data).value
  {
    if data == "" {
      var empty := new Option<ObstacleData>[0];
      return Value(empty);
    }
    var parts := Split(data, ';');
    var decode := DeserializeObstacle;
    var obstacles := new Option<ObstacleData>[|parts|];
    for i := 0 to |parts|
      invariant DecodePieces(parts[..i], decode) == Value(obstacles[..i])
    {
      var o := decode(parts[i]);
      assert parts[..i + 1][..i] == parts[..i];
      if o.Exception? {
        DecodePiecesThrows(parts, decode, i + 1);
        return Exception;
      }
      obstacles[i] := Entry(o);
      assert obstacles[..i + 1] == obstacles[..i] + [Entry(o)];
    }
    assert parts[..|parts|] == parts;
    return Value(obstacles);
  }

  /** An empty map is sent as "", and "" is read back as an empty map. */
  lemma GameStartEmpty()
    ensures EncodeGameStart([]) == Value("") && DecodeGameStart("") == Value([])
  {
  }

  /** A non-empty map round-trips: the text decodes to as many entries as there were
      obstacles, each equal to the one sent. */
  lemma GameStartRoundTrip(obstacles: seq<ObstacleData>)
    requires |obstacles| > 0
    ensures EncodeGameStart(Entries(obstacles)) == Value(MapText(obstacles))
    ensures DecodeGameStart(MapText(obstacles)) == Value(Entries(obstacles))
  {
    var entries := Entries(obstacles);
    var texts := seq(|obstacles|, i requires 0 <= i < |obstacles| => SerializeObstacle(obstacles[i]));
    assert EncodeGameStart(entries) == Value(MapText(obstacles)) by {
      assert seq(|entries|, i requires 0 <= i < |entries| => SerializeObstacle(entries[i].value)) == texts;
    }
    assert Split(MapText(obstacles), ';') == texts by {
      SplitJoin(texts, ';');
    }
    assert MapText(obstacles) != "" by {
      JoinNonEmpty(texts, ';');
    }
    forall i | 0 <= i < |texts|
      ensures DeserializeObstacle(texts[i]) == Value(obstacles[i])
    {
      ObstacleRoundTrip(obstacles[i]);
    }
    DecodePiecesAll(texts, DeserializeObstacle, obstacles);
  }

  lemma JoinNonEmpty(parts: seq<string>, d: char)
    requires |parts| > 0 && parts[0] != ""
    ensures Join(parts, d) != ""
  {
    if |parts| > 1 {
      assert |Join(parts, d)| >= |parts[0]|;
    }
  }
}
