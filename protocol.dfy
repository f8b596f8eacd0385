/**
 * The console command protocol of the game (`Game::Event_Chess*`): how a
 * peer's own commands and the commands it receives from its opponent or its
 * server change the session and the match, and which lines are sent to the
 * opponent and to the spectators. The network system is outside the model:
 * its connection state, its current port and address and its validity tests
 * are parameters, and what the game asks of it is appended to an outbox.
 */
module Protocol {
  import opened Wrappers
  import opened BoardCoords
  import opened PieceRules
  import opened MatchTypes
  import opened BoardSetup
  import opened Commands
  import opened MatchCommands
  import opened MoveRules
  import opened ChessMatchModel

  /** The network system's connection state. */
  datatype ConnState = Uninitialized | Idle | ServerListening | ClientConnecting | ClientConnected

  /** The game's top-level state. */
  datatype GameMode = Attract | Playing

  /** One request the game makes of the network system. */
  datatype NetOp =
    | ToAll(line: string)            // queued for every connection (server side)
    | ToServer(line: string)         // queued for the server (client side)
    | ToAllButFirst(line: string)    // queued for every connection but the opponent's
    | OnceToClients(line: string)    // sent at once to every connection (server side)
    | OnceToServer(line: string)     // sent at once to the server (client side)
    | SetListeningPort(port: int)
    | SetServerAddress(ip: string)
    | StartServer
    | StartClient
    | SwitchToPort(port: int)
    | SwitchToPortAndAddress(port: int, ip: string)
    | ServerDisconnect
    | ClientDisconnect
    | DisconnectAll

  /** A request that carries a line to the opponent. */
  predicate ToOpponent(op: NetOp) {
    op.ToAll? || op.ToServer? || op.OnceToClients? || op.OnceToServer?
  }

  /**
   * `Game::SetOutgoingData`: a server queues the line for every connection,
   * a connected client for its server; in any other state nothing is sent.
   */
  function PeerSend(conn: ConnState, line: string): (ops: seq<NetOp>)
    ensures |ops| <= 1
    ensures |ops| == 1 <==> conn == ServerListening || conn == ClientConnected
    ensures forall op :: op in ops ==> ToOpponent(op) && op.line == line
  {
    match conn
    case ServerListening => [ToAll(line)]
    case ClientConnected => [ToServer(line)]
    case _ => []
  }

  /** Whether `Game::SetOutgoingData` reports success. */
  predicate PeerSendOk(conn: ConnState) {
    conn == ServerListening || conn == ClientConnected
  }

  /**
   * `Game::SetOutgoingDataToAllSpectators`: only a server relays, with
   * ` fromServer=true` appended, to every connection but the opponent's; a
   * client relays nothing.
   */
  function SpectatorSend(conn: ConnState, line: string): (ops: seq<NetOp>)
    ensures |ops| <= 1
    ensures |ops| == 1 <==> conn == ServerListening
    ensures forall op :: op in ops ==> !ToOpponent(op) && op == ToAllButFirst(line + " fromServer=true")
  {
    if conn == ServerListening then [ToAllButFirst(line + " fromServer=true")] else []
  }

  /** Whether `Game::SetOutgoingDataToAllSpectators` reports success. */
  predicate SpectatorSendOk(conn: ConnState) {
    conn == ServerListening || conn == ClientConnected
  }

  /** `Game::SendOutgoingDataImmediately` without the disconnect option: at once to the other side. */
  function SendNow(conn: ConnState, line: string): (ops: seq<NetOp>)
    ensures |ops| == 1 <==> conn == ServerListening || conn == ClientConnected
    ensures forall op :: op in ops ==> ToOpponent(op) && op.line == line
  {
    match conn
    case ServerListening => [OnceToClients(line)]
    case ClientConnected => [OnceToServer(line)]
    case _ => []
  }

  /**
   * The lines a self-issued `ChessDisconnect` sends before it disconnects:
   * the reason when there is one, `remote=true`, and `isSpectator=true` when
   * the command or the session says so.
   */
  function DisconnectLine(reason: string, spectator: bool): string {
    (if reason == "" then "ChessDisconnect remote=true"
     else "ChessDisconnect reason=" + reason + " remote=true")
    + (if spectator then " isSpectator=true" else "")
  }

  /**
   * The port a listen or connect command asks for: the previous port when
   * none is given, else the number read from the text, cut to 16 bits as
   * the source's `unsigned short` conversion does.
   */
  function RequestedPort(text: string, prevPort: int, stoi: string -> int): int {
    if text == "" then prevPort else stoi(text) % 0x1_0000
  }

  /**
   * The port fallback of `Game::Event_ChessListen` and
   * `Game::Event_ChessConnect`: the requested port when valid, otherwise the
   * previous port when that is valid, otherwise none.
   */
  function ChoosePort(requested: int, prevPort: int, portValid: int -> bool): (p: Option<int>)
    ensures p.Some? ==> portValid(p.value)
    ensures p.Some? ==> p.value == requested || p.value == prevPort
    ensures p.None? <==> !portValid(requested) && !portValid(prevPort)
    ensures portValid(requested) ==> p == Some(requested)
  {
    if !portValid(requested) then
      (if !portValid(prevPort) then None else Some(prevPort))
    else Some(requested)
  }

  /**
   * The address fallback of `Game::Event_ChessConnect`: the given address
   * (the previous one when none is given) when valid, otherwise the previous
   * one when that is valid, otherwise none.
   */
  function ChooseAddress(text: string, prevIP: string, ipValid: string -> bool): (ip: Option<string>)
    ensures ip.Some? ==> ipValid(ip.value)
    ensures ip.Some? ==> ip.value == text || ip.value == prevIP
    ensures ip.None? <==> !ipValid(prevIP) && (text == "" || !ipValid(text))
    ensures text != "" && ipValid(text) ==> ip == Some(text)
  {
    var tempIP := if text == "" then prevIP else text;
    if !ipValid(tempIP) then
      (if !ipValid(prevIP) then None else Some(prevIP))
    else Some(tempIP)
  }

  /**
   * The starting player a `ChessBegin` names, as a seat index: no name or
   * this peer's own name gives its own seat, the opponent's name the other
   * seat, and any other name -1.
   */
  function FirstPlayerIndex(first: string, myName: string, opponentName: string, myIndex: bool): (i: int)
    ensures -1 <= i <= 1
    ensures i == -1 <==> first != "" && first != myName && first != opponentName
    ensures first == "" ==> i == SideIndex(myIndex)
  {
    if first == "" || first == myName then SideIndex(myIndex)
    else if first == opponentName then SideIndex(!myIndex)
    else -1
  }

  /** The name a `ChessBegin` line carries: the given name, or this peer's own when none is given. */
  function BeginName(first: string, myName: string): string {
    if first == "" then myName else first
  }

  /**
   * Two peers with distinct, non-empty names, each seeing the other's name
   * as its opponent's and sitting in opposite seats, resolve a `ChessBegin`
   * to the same starting seat: the sender from its command, the receiver
   * from the line it was sent.
   */
  lemma {:induction false} BeginResolvesSameStarter(first: string, myName: string, opponentName: string, myIndex: bool)
    requires myName != "" && myName != opponentName
    requires FirstPlayerIndex(first, myName, opponentName, myIndex) != -1
    ensures FirstPlayerIndex(BeginName(first, myName), opponentName, myName, !myIndex) ==
            FirstPlayerIndex(first, myName, opponentName, myIndex)
  {
    if first == "" || first == myName {
      assert BeginName(first, myName) == myName;
    } else {
      assert first == opponentName;
    }
  }

  /**
   * With equal names the two peers disagree: each resolves the name to its
   * own seat. (A `ChessPlayerInfo` never sets a name equal to the other.)
   */
  lemma {:induction false} EqualNamesSplitTheStart(name: string, myIndex: bool)
    requires name != ""
    ensures FirstPlayerIndex(BeginName(name, name), name, name, !myIndex) !=
            FirstPlayerIndex(name, name, name, myIndex)
  {
  }

  /** The printed form of a whole number (`std::to_string`). */
  function NatText(n: nat): (s: string)
    ensures |s| > 0 && forall i :: 0 <= i < |s| ==> '0' <= s[i] <= '9'
    decreases n
  {
    if n < 10 then [('0' as int + n) as char]
    else NatText(n / 10) + [('0' as int + n % 10) as char]
  }

  function IntText(n: int): (s: string)
    ensures |s| > 0
  {
    if n < 0 then "-" + NatText(-n) else NatText(n)
  }

  /** The value of a string of decimal digits. */
  function DigitsValue(s: string): nat
    requires forall i :: 0 <= i < |s| ==> '0' <= s[i] <= '9'
  {
    if |s| == 0 then 0 else 10 * DigitsValue(s[..|s| - 1]) + (s[|s| - 1] as int - '0' as int)
  }

  /** A printed whole number reads back as itself. */
  lemma {:induction false} NatTextValue(n: nat)
    ensures DigitsValue(NatText(n)) == n
    decreases n
  {
    if n >= 10 {
      NatTextValue(n / 10);
      var s := NatText(n);
      assert s[..|s| - 1] == NatText(n / 10);
    }
  }

  /**
   * The five values a remote `ChessValidate` compares with the local game:
   * the state text, the two names, the turn number and the 64 board cells.
   * An omitted move number stands for the local one.
   */
  predicate ValidationMismatch(args: Args, localState: string, name0: string, name1: string,
                               turn: int, board: string, stoi: string -> int)
  {
    var moveText := GetValue(args, "move", "");
    GetValue(args, "state", "") != localState
    || GetValue(args, "player1", "") != name0
    || GetValue(args, "player2", "") != name1
    || (if moveText == "" then turn else stoi(moveText)) != turn
    || GetValue(args, "board", "") != board
  }

  /**
   * The move number a self-issued `ChessValidate` sends: the given text when
   * it names the local turn (an omitted number counts as naming it),
   * otherwise the local turn printed.
   */
  function SentMoveText(moveText: string, turn: int, stoi: string -> int): string {
    var input := if moveText == "" then turn else stoi(moveText);
    if input != turn then IntText(turn) else moveText
  }

  /**
   * A plain `ChessValidate` (no move number given) sends an empty move
   * number, and the receiver reads an empty move number as its own turn:
   * the two turn numbers are never compared, however far apart they are.
   */
  lemma {:induction false} PlainValidationSkipsTurnCheck(args: Args, localState: string, name0: string, name1: string,
                                                         senderTurn: int, receiverTurn: int, board: string,
                                                         stoi: string -> int)
    requires GetValue(args, "move", "") == SentMoveText("", senderTurn, stoi)
    requires GetValue(args, "state", "") == localState
    requires GetValue(args, "player1", "") == name0 && GetValue(args, "player2", "") == name1
    requires GetValue(args, "board", "") == board
    ensures !ValidationMismatch(args, localState, name0, name1, receiverTurn, board, stoi)
  {
    assert SentMoveText("", senderTurn, stoi) == "";
  }

  /**
   * A `ChessValidate` carrying a printed turn number is compared with the
   * receiver's turn: when the receiver reads printed numbers back as their
   * values, a different turn is a mismatch.
   */
  lemma {:induction false} PrintedTurnIsChecked(args: Args, localState: string, name0: string, name1: string,
                                                senderTurn: nat, receiverTurn: int, board: string,
                                                stoi: string -> int)
    requires GetValue(args, "move", "") == NatText(senderTurn)
    requires stoi(NatText(senderTurn)) == DigitsValue(NatText(senderTurn))
    requires senderTurn != receiverTurn
    ensures ValidationMismatch(args, localState, name0, name1, receiverTurn, board, stoi)
  {
    NatTextValue(senderTurn);
  }

  /**
   * What an allowed command sends: a received one (`remote` is 1) goes to
   * the spectators, a self-issued one to the opponent marked `remote=true`,
   * except from a spectator.
   */
  function Announcement(conn: ConnState, remote: int, spectator: bool, line: string): (ops: seq<NetOp>)
    ensures remote == 1 ==> forall k :: 0 <= k < |ops| ==> !ToOpponent(ops[k])
    ensures remote != 1 && spectator ==> ops == []
  {
    if remote == 1 then SpectatorSend(conn, line)
    else if spectator then []
    else PeerSend(conn, line + " remote=true")
  }

  /** The line a `ChessBegin` sends: the resolved name of the first player. */
  function BeginLine(first: string, myName: string): string {
    "ChessBegin firstPlayer=" + BeginName(first, myName)
  }

  /** The class-wide match state: the staged statics, then the staged squares, the end, the result and the side to move. */
  type MatchSnapshot = (Staged, (Coords, Coords, bool, int, bool))

  /** The match's `chessmove` command took effect: what `MatchStatics.EventChessMove` does. */
  predicate MoveStaged(before: MatchSnapshot, after: MatchSnapshot, args: Args) {
    var c := ParseMoveCommand(args, before.1.4);
    if c.None? then after == before
    else
      var staged := before.0.(isTeleporting := c.value.teleport,
                              promoteToPiece := if c.value.promoteGlyph.Some? then c.value.promoteGlyph.value
                                                else before.0.promoteToPiece);
      after == (staged, (c.value.from, c.value.to, before.1.2, before.1.3, before.1.4))
  }

  /** The match ended with the given result, and nothing else changed. */
  predicate EndedWith(before: MatchSnapshot, after: MatchSnapshot, result: int) {
    after == (before.0, (before.1.0, before.1.1, true, result, before.1.4))
  }

  /** One more pair of a command line: the text grows by that pair's piece. */
  lemma ArgsTextSnoc(args: Args, i: int, skip: set<string>)
    requires 0 <= i < |args|
    ensures ArgsText(args[..i + 1], skip) == ArgsText(args[..i], skip) + PairText(args[i], skip)
  {
    var whole := Pieces(args[..i + 1], skip);
    assert whole[..i] == Pieces(args[..i], skip);
  }

  /**
   * The loop of `Game::Event_RemoteCmd` and `Game::Event_ChessMove` that
   * builds a command line: the name, then ` key=value` for each pair in key
   * order whose key is not skipped.
   */
  method CommandLine(name: string, args: Args, skip: set<string>) returns (line: string)
    ensures line == name + ArgsText(args, skip)
  {
    var result := "";
    for i := 0 to |args|
      invariant result == ArgsText(args[..i], skip)
    {
      ArgsTextSnoc(args, i, skip);
      if args[i].0 !in skip {
        result := result + (" " + args[i].0 + "=" + args[i].1);
      }
    }
    assert args[..|args|] == args;
    line := name + result;
  }

  /**
   * A key the line skips can be added to the arguments without changing the
   * line: a received `ChessMove` (marked `remote=true`) relays the same line
   * as the command without the mark.
   */
  lemma {:induction false} RemoteMarkNotRelayed(args: Args, value: string)
    requires Sorted(args) && !HasKey(args, "remote")
    ensures "ChessMove" + ArgsText(SetValue(args, "remote", value), {"cmd", "remote"}) ==
            "ChessMove" + ArgsText(args, {"cmd", "remote"})
  {
    SkippedKeyNotInText(args, "remote", value, {"cmd", "remote"});
  }

  /**
   * The line a self-issued `ChessValidate` sends during a match: a state
   * text that is not one of the three is replaced by the local state, every
   * name and the board are the local ones, and the move number is the one
   * `SentMoveText` gives.
   */
  function ValidateLine(args: Args, localState: string, name0: string, name1: string,
                        turn: int, board: string, stoi: string -> int): string
  {
    var state := GetValue(args, "state", "");
    var sentState :=
      if state != "Player1Moving" && state != "Player2Moving" && state != "GameOver" then localState else state;
    "ChessValidate state=" + sentState + " player1=" + name0 + " player2=" + name1
    + " move=" + SentMoveText(GetValue(args, "move", ""), turn, stoi) + " board=" + board + " remote=true"
  }

  /** The line a self-issued `ChessValidate` sends outside a match: only the state. */
  function ValidateLineNoMatch(args: Args): string {
    var state := GetValue(args, "state", "");
    var sentState :=
      if state != "Player1Moving" && state != "Player2Moving" && state != "GameOver" then "GameOver" else state;
    "ChessValidate state=" + sentState + " remote=true"
  }

  /**
   * The part of the game the protocol changes: the two player names (seat 0
   * and seat 1), this peer's seat, whether it spectates, the seat to move
   * first, the pending draw offer, the top-level state, the current match
   * (none outside a game) and the requests made of the network system.
   */
  class Game {
    const statics: MatchStatics
    const defaultBoard: string
    var currentMatch: ChessMatch?
    var names: seq<string>
    var myPlayerIndex: bool
    var isSpectator: bool
    var currentPlayerIndex: int
    var canAcceptOrRejectDraw: bool
    var mode: GameMode
    var outbox: seq<NetOp>

    predicate Valid()
      reads this, currentMatch
    {
      |names| == 2 && (currentMatch != null ==> currentMatch.statics == statics && currentMatch.Valid())
    }

    /** This peer's seat as an index into the names. */
    function Me(): int
      reads this
    {
      SideIndex(myPlayerIndex)
    }

    /** The session facts a handler may change. */
    function Session(): (seq<string>, bool, bool, int, bool, GameMode)
      reads this
    {
      (names, myPlayerIndex, isSpectator, currentPlayerIndex, canAcceptOrRejectDraw, mode)
    }

    /**
     * A match stands at its start: the default board laid over an empty
     * layout, the roster read from that layout, and the first turn.
     */
    predicate AtDefaultStart()
      reads this, currentMatch, if currentMatch != null then {currentMatch.layout} else {}
    {
      currentMatch != null &&
      currentMatch.layout[..] == LayoutFromString(seq(LayoutSize, _ => 0 as char), defaultBoard) &&
      currentMatch.pieces == RosterOf(currentMatch.layout[..]) && currentMatch.turnNumber == FirstTurn
    }

    /** The class-wide match state, in full. */
    function MatchState(): (Staged, (Coords, Coords, bool, int, bool))
      reads this, statics
    {
      (statics.StagedState(), statics.Rest())
    }

    constructor (s: MatchStatics, board: string, name0: string, name1: string)
      ensures Valid() && statics == s && defaultBoard == board && currentMatch == null
      ensures names == [name0, name1] && !myPlayerIndex && !isSpectator && currentPlayerIndex == 0
      ensures !canAcceptOrRejectDraw && mode == Attract && outbox == []
    {
      statics := s;
      defaultBoard := board;
      currentMatch := null;
      names := [name0, name1];
      myPlayerIndex := false;
      isSpectator := false;
      currentPlayerIndex := 0;
      canAcceptOrRejectDraw := false;
      mode := Attract;
      outbox := [];
    }

    /** `Game::SetOutgoingData`. */
    method SetOutgoingData(conn: ConnState, line: string) returns (ok: bool)
      modifies this
      ensures ok == PeerSendOk(conn) && outbox == old(outbox) + PeerSend(conn, line)
      ensures Session() == old(Session()) && currentMatch == old(currentMatch)
    {
      outbox := outbox + PeerSend(conn, line);
      ok := PeerSendOk(conn);
    }

    /** `Game::SetOutgoingDataToAllSpectators`. */
    method SetOutgoingDataToAllSpectators(conn: ConnState, line: string) returns (ok: bool)
      modifies this
      ensures ok == SpectatorSendOk(conn) && outbox == old(outbox) + SpectatorSend(conn, line)
      ensures Session() == old(Session()) && currentMatch == old(currentMatch)
    {
      var data := line + " fromServer=true";
      if conn == ServerListening {
        outbox := outbox + [ToAllButFirst(data)];
      }
      ok := SpectatorSendOk(conn);
    }

    /**
     * `Game::SpectatorCheck`: a spectator connected to a server may not act,
     * except on a command its server relayed (`fromServer=true`).
     */
    method SpectatorCheck(conn: ConnState, fromServer: string) returns (allowed: bool)
      ensures allowed <==> !(isSpectator && conn == ClientConnected) || BoolArg(fromServer) == 1
    {
      if isSpectator && conn == ClientConnected {
        return BoolArg(fromServer) == 1;
      }
      return true;
    }

    /**
     * `Game::EnterState`: the attract state discards the match and resets
     * the class-wide match data and the draw offer; the playing state starts
     * a new match from the default board with the chosen first seat.
     */
    method EnterState(m: GameMode)
      requires Valid()
      modifies this, statics
      ensures Valid() && mode == m && outbox == old(outbox)
      ensures names == old(names) && myPlayerIndex == old(myPlayerIndex) && isSpectator == old(isSpectator)
      ensures currentPlayerIndex == old(currentPlayerIndex)
      ensures m == Attract ==>
                currentMatch == null && !canAcceptOrRejectDraw &&
                statics.formerCoords == Coords(0, 0) && statics.desiredCoords == Coords(0, 0) &&
                statics.promoteToPiece == NoPromotion && !statics.matchEnds &&
                statics.result == Undetermined && !statics.player1Turn &&
                statics.autoPromoteToQueen == old(statics.autoPromoteToQueen) &&
                statics.isTeleporting == old(statics.isTeleporting)
      ensures m == Playing ==>
                currentMatch != null && fresh(currentMatch) && fresh(currentMatch.layout) && AtDefaultStart() &&
                statics.player1Turn == (currentPlayerIndex == 1) &&
                canAcceptOrRejectDraw == old(canAcceptOrRejectDraw) &&
                statics.StagedState() == old(statics.StagedState()) &&
                statics.formerCoords == old(statics.formerCoords) && statics.desiredCoords == old(statics.desiredCoords) &&
                statics.matchEnds == old(statics.matchEnds) && statics.result == old(statics.result)
    {
      if m == Attract {
        canAcceptOrRejectDraw := false;
        statics.ResetMatchData();
        currentMatch := null;
      } else {
        var started := new ChessMatch(statics, currentPlayerIndex, defaultBoard);
        started.InitPiecesToMatchBoardState();
        currentMatch := started;
      }
      mode := m;
    }

    /** Whether `Game::SpectatorCheck` lets a self-issued command through. */
    predicate Allowed(conn: ConnState, args: Args)
      reads this
    {
      !(isSpectator && conn == ClientConnected) || BoolArg(GetValue(args, "fromServer", "")) == 1
    }

    /** The match's `chessmove` command run on this game's statics. */
    method StageMove(args: Args)
      modifies statics
      ensures MoveStaged(old(MatchState()), MatchState(), args)
    {
      var _ := statics.EventChessMove(args);
    }

    /**
     * `Game::Event_ChessMove`: both squares must be valid and the remote flag
     * readable. A self-issued command (the match already made the move) is
     * sent to the opponent marked `remote=true`; a spectator stages it on its
     * own match instead. A received one is relayed to the spectators and
     * staged on the match.
     */
    method EventChessMove(conn: ConnState, args: Args) returns (ok: bool)
      requires Valid()
      modifies this, statics
      ensures Valid() && Session() == old(Session()) && currentMatch == old(currentMatch)
      ensures var remote := BoolArg(GetValue(args, "remote", ""));
              ok <==> IsSquareCoordsValid(GetValue(args, "from", "")) && IsSquareCoordsValid(GetValue(args, "to", ""))
                      && remote != -1 && (remote == 0 ==> old(Allowed(conn, args)))
      ensures !ok ==> outbox == old(outbox) && MatchState() == old(MatchState())
      ensures var line := "ChessMove" + ArgsText(args, {"cmd", "remote"});
              var remote := BoolArg(GetValue(args, "remote", ""));
              ok ==>
                (remote == 0 && !isSpectator ==>
                   outbox == old(outbox) + PeerSend(conn, line + " remote=true") && MatchState() == old(MatchState())) &&
                (remote == 0 && isSpectator ==> outbox == old(outbox) && MoveStaged(old(MatchState()), MatchState(), args)) &&
                (remote == 1 ==> outbox == old(outbox) + SpectatorSend(conn, line) && MoveStaged(old(MatchState()), MatchState(), args))
    {
      var fromText := GetValue(args, "from", "");
      var toText := GetValue(args, "to", "");
      if !IsSquareCoordsValid(fromText) || !IsSquareCoordsValid(toText) {
        return false;
      }
      var remote := BoolArg(GetValue(args, "remote", ""));
      if remote == -1 {
        return false;
      }
      var line := CommandLine("ChessMove", args, {"cmd", "remote"});
      if remote == 0 {
        var allowed := SpectatorCheck(conn, GetValue(args, "fromServer", ""));
        if !allowed {
          return false;
        }
        if !isSpectator {
          var _ := SetOutgoingData(conn, line + " remote=true");
        } else {
          StageMove(args);
        }
      } else {
        var _ := SetOutgoingDataToAllSpectators(conn, line);
        StageMove(args);
      }
      ok := true;
    }

    /**
     * `Game::HandleTurnChange`: a pending draw offer lapses when the turn
     * passes, and the seat to move follows the match's turn flag.
     */
    method HandleTurnChange()
      modifies this
      ensures !canAcceptOrRejectDraw && currentPlayerIndex == SideIndex(statics.player1Turn)
      ensures names == old(names) && myPlayerIndex == old(myPlayerIndex) && isSpectator == old(isSpectator)
      ensures mode == old(mode) && outbox == old(outbox) && currentMatch == old(currentMatch)
    {
      canAcceptOrRejectDraw := false;
      currentPlayerIndex := SideIndex(statics.player1Turn);
    }

    /**
     * A move this seat made, handed to `Game::Event_ChessMove` as a
     * self-issued command: its squares are valid and it carries no remote
     * mark, so it goes to the opponent marked `remote=true` and changes
     * nothing else.
     */
    method SendOwnMove(conn: ConnState, args: Args)
      requires Valid() && !isSpectator
      requires IsSquareCoordsValid(GetValue(args, "from", "")) && IsSquareCoordsValid(GetValue(args, "to", ""))
      requires GetValue(args, "remote", "") == ""
      modifies this, statics
      ensures Valid() && Session() == old(Session()) && currentMatch == old(currentMatch) && MatchState() == old(MatchState())
      ensures outbox == old(outbox) + PeerSend(conn, "ChessMove" + ArgsText(args, {"cmd", "remote"}) + " remote=true")
    {
      var ok := EventChessMove(conn, args);
      assert ok;
    }

    /**
     * The move step of `ChessMatch::Update`, seen from the game: the match
     * carries out the staged move; a move this seat makes in a remote match
     * goes to the opponent through `Game::Event_ChessMove` as a self-issued
     * command; a move that does not end the match passes the turn through
     * `Game::HandleTurnChange`. Nothing else in the session changes.
     */
    method UpdateMatchMove(conn: ConnState, playingRemotely: bool) returns (status: MoveStatus, relay: Option<Args>)
      requires Valid() && currentMatch != null
      requires IsBoardCoordsValid(statics.formerCoords) && IsBoardCoordsValid(statics.desiredCoords)
      requires StagedMoveGate(currentMatch.layout[..], statics.matchEnds, statics.player1Turn,
                              statics.formerCoords, statics.desiredCoords).None? ==>
               currentMatch.MoveDefined(statics.formerCoords, statics.desiredCoords)
      modifies this, currentMatch, currentMatch.layout, statics
      ensures Valid() && currentMatch == old(currentMatch)
      ensures names == old(names) && myPlayerIndex == old(myPlayerIndex) && isSpectator == old(isSpectator) && mode == old(mode)
      ensures relay.Some? <==> status == MoveMade && playingRemotely && SideIndex(old(statics.player1Turn)) == Me() && !isSpectator
      ensures relay.Some? ==>
                GetValue(relay.value, "from", "") == SquareCoordsForBoardCoords(old(statics.formerCoords)) &&
                GetValue(relay.value, "to", "") == SquareCoordsForBoardCoords(old(statics.desiredCoords)) &&
                outbox == old(outbox) + PeerSend(conn, "ChessMove" + ArgsText(relay.value, {"cmd", "remote"}) + " remote=true")
      ensures relay.None? ==> outbox == old(outbox)
      ensures status == MoveMade && !statics.matchEnds ==>
                statics.player1Turn == !old(statics.player1Turn) &&
                !canAcceptOrRejectDraw && currentPlayerIndex == SideIndex(statics.player1Turn)
      ensures !(status == MoveMade && !statics.matchEnds) ==>
                statics.player1Turn == old(statics.player1Turn) &&
                canAcceptOrRejectDraw == old(canAcceptOrRejectDraw) && currentPlayerIndex == old(currentPlayerIndex)
      ensures old(statics.matchEnds) ==>
                status != MoveMade && currentMatch.BoardState() == old(currentMatch.BoardState()) &&
                statics.matchEnds && statics.result == old(statics.result)
    {
      ghost var from, to := statics.formerCoords, statics.desiredCoords;
      ghost var b, s := currentMatch.BoardState(), statics.StagedState();
      status, relay := currentMatch.UpdateMovePieceCommand(playingRemotely, Me(), isSpectator);
      if relay.Some? {
        ghost var v := Validate(b, s, from, to);
        RelayValues(v.result, v.staged.isTeleporting);
        PrintThenParse(from);
        PrintThenParse(to);
        SendOwnMove(conn, relay.value);
      }
      if status == MoveMade && !statics.matchEnds {
        HandleTurnChange();
      }
    }

    /**
     * `Game::Event_ChessResign`: a self-issued resignation makes the
     * opponent's seat the winner and is sent on unless this peer spectates;
     * a received one makes this peer's seat the winner and is relayed to the
     * spectators.
     */
    method EventChessResign(conn: ConnState, args: Args) returns (ok: bool)
      requires Valid()
      modifies this, statics
      ensures Valid() && Session() == old(Session()) && currentMatch == old(currentMatch)
      ensures var remote := BoolArg(GetValue(args, "remote", ""));
              ok <==> remote != -1 && (remote == 0 ==> old(Allowed(conn, args)))
      ensures !ok ==> outbox == old(outbox) && MatchState() == old(MatchState())
      ensures var remote := BoolArg(GetValue(args, "remote", ""));
              ok ==>
                (remote == 0 ==>
                   EndedWith(old(MatchState()), MatchState(), SideIndex(!myPlayerIndex)) &&
                   outbox == old(outbox) + (if isSpectator then [] else PeerSend(conn, "ChessResign remote=true"))) &&
                (remote == 1 ==>
                   EndedWith(old(MatchState()), MatchState(), SideIndex(myPlayerIndex)) &&
                   outbox == old(outbox) + SpectatorSend(conn, "ChessResign"))
    {
      var remote := BoolArg(GetValue(args, "remote", ""));
      if remote == -1 {
        return false;
      }
      if remote == 0 {
        var allowed := SpectatorCheck(conn, GetValue(args, "fromServer", ""));
        if !allowed {
          return false;
        }
        if !isSpectator {
          var _ := SetOutgoingData(conn, "ChessResign remote=true");
        }
        statics.SetMatchResultAndEndTheGame(SideIndex(!myPlayerIndex));
      } else {
        var _ := SetOutgoingDataToAllSpectators(conn, "ChessResign");
        statics.SetMatchResultAndEndTheGame(SideIndex(myPlayerIndex));
      }
      ok := true;
    }

    /**
     * `Game::Event_ChessAcceptDraw`: a self-issued acceptance needs a pending
     * offer, clears it and is sent on unless this peer spectates; a received
     * one is relayed to the spectators. Either way the match ends drawn.
     */
    method EventChessAcceptDraw(conn: ConnState, args: Args) returns (ok: bool)
      requires Valid()
      modifies this, statics
      ensures Valid() && currentMatch == old(currentMatch)
      ensures names == old(names) && myPlayerIndex == old(myPlayerIndex) && isSpectator == old(isSpectator)
      ensures currentPlayerIndex == old(currentPlayerIndex) && mode == old(mode)
      ensures var remote := BoolArg(GetValue(args, "remote", ""));
              ok <==> remote != -1 && (remote == 0 ==> old(Allowed(conn, args)) && old(canAcceptOrRejectDraw))
      ensures !ok ==> outbox == old(outbox) && MatchState() == old(MatchState()) &&
                      canAcceptOrRejectDraw == old(canAcceptOrRejectDraw)
      ensures var remote := BoolArg(GetValue(args, "remote", ""));
              ok ==>
                EndedWith(old(MatchState()), MatchState(), DrawResult) &&
                (remote == 0 ==>
                   !canAcceptOrRejectDraw &&
                   outbox == old(outbox) + (if isSpectator then [] else PeerSend(conn, "ChessAcceptDraw remote=true"))) &&
                (remote == 1 ==>
                   canAcceptOrRejectDraw == old(canAcceptOrRejectDraw) &&
                   outbox == old(outbox) + SpectatorSend(conn, "ChessAcceptDraw"))
    {
      var remote := BoolArg(GetValue(args, "remote", ""));
      if remote == -1 {
        return false;
      }
      if remote == 0 {
        var allowed := SpectatorCheck(conn, GetValue(args, "fromServer", ""));
        if !allowed {
          return false;
        }
        if !canAcceptOrRejectDraw {
          return false;
        }
        if !isSpectator {
          var _ := SetOutgoingData(conn, "ChessAcceptDraw remote=true");
        }
        canAcceptOrRejectDraw := false;
      } else {
        var _ := SetOutgoingDataToAllSpectators(conn, "ChessAcceptDraw");
      }
      statics.SetMatchResultAndEndTheGame(DrawResult);
      ok := true;
    }

    /**
     * `Game::Event_ChessRejectDraw`: like accepting, but the match goes on.
     */
    method EventChessRejectDraw(conn: ConnState, args: Args) returns (ok: bool)
      requires Valid()
      modifies this
      ensures Valid() && currentMatch == old(currentMatch)
      ensures names == old(names) && myPlayerIndex == old(myPlayerIndex) && isSpectator == old(isSpectator)
      ensures currentPlayerIndex == old(currentPlayerIndex) && mode == old(mode)
      ensures var remote := BoolArg(GetValue(args, "remote", ""));
              ok <==> remote != -1 && (remote == 0 ==> old(Allowed(conn, args)) && old(canAcceptOrRejectDraw))
      ensures !ok ==> outbox == old(outbox) && canAcceptOrRejectDraw == old(canAcceptOrRejectDraw)
      ensures var remote := BoolArg(GetValue(args, "remote", ""));
              ok ==>
                (remote == 0 ==>
                   !canAcceptOrRejectDraw &&
                   outbox == old(outbox) + (if isSpectator then [] else PeerSend(conn, "ChessRejectDraw remote=true"))) &&
                (remote == 1 ==>
                   canAcceptOrRejectDraw == old(canAcceptOrRejectDraw) &&
                   outbox == old(outbox) + SpectatorSend(conn, "ChessRejectDraw"))
    {
      var remote := BoolArg(GetValue(args, "remote", ""));
      if remote == -1 {
        return false;
      }
      if remote == 0 {
        var allowed := SpectatorCheck(conn, GetValue(args, "fromServer", ""));
        if !allowed {
          return false;
        }
        if !canAcceptOrRejectDraw {
          return false;
        }
        if !isSpectator {
          var _ := SetOutgoingData(conn, "ChessRejectDraw remote=true");
        }
        canAcceptOrRejectDraw := false;
      } else {
        var _ := SetOutgoingDataToAllSpectators(conn, "ChessRejectDraw");
      }
      ok := true;
    }

    /**
     * `Game::Event_ChessOfferDraw`: needs a match. While the opponent's offer
     * is pending, offering accepts it instead (and reports failure). A
     * self-issued offer is sent on unless this peer spectates; a received
     * one is relayed to the spectators and becomes the pending offer.
     */
    method EventChessOfferDraw(conn: ConnState, args: Args) returns (ok: bool)
      requires Valid()
      modifies this, statics
      ensures Valid() && currentMatch == old(currentMatch)
      ensures names == old(names) && myPlayerIndex == old(myPlayerIndex) && isSpectator == old(isSpectator)
      ensures currentPlayerIndex == old(currentPlayerIndex) && mode == old(mode)
      ensures var remote := BoolArg(GetValue(args, "remote", ""));
              ok <==> remote != -1 && old(currentMatch) != null && !old(canAcceptOrRejectDraw) &&
                      (remote == 0 ==> old(Allowed(conn, args)))
      ensures var remote := BoolArg(GetValue(args, "remote", ""));
              remote != -1 && old(currentMatch) != null && old(canAcceptOrRejectDraw) ==>
                (!(isSpectator && conn == ClientConnected) ==>
                   !canAcceptOrRejectDraw && EndedWith(old(MatchState()), MatchState(), DrawResult) &&
                   outbox == old(outbox) + (if isSpectator then [] else PeerSend(conn, "ChessAcceptDraw remote=true"))) &&
                (isSpectator && conn == ClientConnected ==>
                   canAcceptOrRejectDraw && MatchState() == old(MatchState()) && outbox == old(outbox))
      ensures var remote := BoolArg(GetValue(args, "remote", ""));
              !ok && !(remote != -1 && old(currentMatch) != null && old(canAcceptOrRejectDraw)) ==>
                outbox == old(outbox) && MatchState() == old(MatchState()) &&
                canAcceptOrRejectDraw == old(canAcceptOrRejectDraw)
      ensures var remote := BoolArg(GetValue(args, "remote", ""));
              ok ==>
                MatchState() == old(MatchState()) &&
                (remote == 0 ==>
                   !canAcceptOrRejectDraw &&
                   outbox == old(outbox) + (if isSpectator then [] else PeerSend(conn, "ChessOfferDraw remote=true"))) &&
                (remote == 1 ==>
                   canAcceptOrRejectDraw && outbox == old(outbox) + SpectatorSend(conn, "ChessOfferDraw"))
    {
      var remote := BoolArg(GetValue(args, "remote", ""));
      if remote == -1 {
        return false;
      }
      if currentMatch == null {
        return false;
      }
      if canAcceptOrRejectDraw {
        assert GetValue([], "remote", "") == "" && GetValue([], "fromServer", "") == "";
        var _ := EventChessAcceptDraw(conn, []);
        return false;
      }
      if remote == 0 {
        var allowed := SpectatorCheck(conn, GetValue(args, "fromServer", ""));
        if !allowed {
          return false;
        }
        if !isSpectator {
          var _ := SetOutgoingData(conn, "ChessOfferDraw remote=true");
        }
      } else {
        var _ := SetOutgoingDataToAllSpectators(conn, "ChessOfferDraw");
        canAcceptOrRejectDraw := true;
      }
      ok := true;
    }

    /**
     * `Game::Event_ChessDisconnect`: both flags must be readable. A
     * self-issued disconnect sends its line at once (marked as a spectator's
     * when the command or the session says so) and drops every connection;
     * a received one drops every connection unless it came from a spectator.
     * Dropping the connections leaves a running match for the attract state.
     */
    method EventChessDisconnect(conn: ConnState, args: Args) returns (ok: bool)
      requires Valid()
      modifies this, statics
      ensures Valid()
      ensures names == old(names) && myPlayerIndex == old(myPlayerIndex) && isSpectator == old(isSpectator)
      ensures currentPlayerIndex == old(currentPlayerIndex)
      ensures ok <==> BoolArg(GetValue(args, "remote", "")) != -1 && BoolArg(GetValue(args, "isSpectator", "")) != -1
      ensures var remote := BoolArg(GetValue(args, "remote", ""));
              var sender := BoolArg(GetValue(args, "isSpectator", ""));
              outbox == old(outbox) +
                (if !ok then []
                 else if remote == 0 then
                   SendNow(conn, DisconnectLine(GetValue(args, "reason", ""), sender == 1 || isSpectator)) + [DisconnectAll]
                 else if sender != 1 then [DisconnectAll]
                 else [])
      ensures var leaves := ok && (BoolArg(GetValue(args, "remote", "")) == 0 || BoolArg(GetValue(args, "isSpectator", "")) != 1);
              (leaves && old(mode) != Attract ==>
                 mode == Attract && currentMatch == null && !canAcceptOrRejectDraw &&
                 statics.formerCoords == Coords(0, 0) && statics.desiredCoords == Coords(0, 0) &&
                 statics.promoteToPiece == NoPromotion && !statics.matchEnds &&
                 statics.result == Undetermined && !statics.player1Turn &&
                 statics.autoPromoteToQueen == old(statics.autoPromoteToQueen) &&
                 statics.isTeleporting == old(statics.isTeleporting)) &&
              (!leaves || old(mode) == Attract ==>
                 mode == old(mode) && currentMatch == old(currentMatch) &&
                 canAcceptOrRejectDraw == old(canAcceptOrRejectDraw) && MatchState() == old(MatchState()))
    {
      var reason := GetValue(args, "reason", "");
      var remote := BoolArg(GetValue(args, "remote", ""));
      if remote == -1 {
        return false;
      }
      var sender := BoolArg(GetValue(args, "isSpectator", ""));
      if sender == -1 {
        return false;
      }
      var senderIsSpectator := sender == 1;
      var disconnecting := false;
      if remote == 0 {
        var line := "ChessDisconnect remote=true";
        if reason != "" {
          line := "ChessDisconnect reason=" + reason + " remote=true";
        }
        if senderIsSpectator || isSpectator {
          line := line + " isSpectator=true";
        }
        assert line == DisconnectLine(reason, senderIsSpectator || isSpectator);
        outbox := outbox + SendNow(conn, line) + [DisconnectAll];
        disconnecting := true;
      } else if !senderIsSpectator {
        outbox := outbox + [DisconnectAll];
        disconnecting := true;
      }
      if disconnecting && mode != Attract {
        EnterState(Attract);
      }
      ok := true;
    }

    /**
     * `Game::Event_ChessPlayerInfo`: a self-issued command renames this
     * peer's seat (no name keeps the current one) unless the name is the
     * opponent's, and is sent on unless this peer spectates. A received one
     * is relayed to the spectators first, then renames the opponent's seat,
     * refusing an empty name or this peer's own. Distinct, non-empty names
     * stay so.
     */
    method EventChessPlayerInfo(conn: ConnState, args: Args) returns (ok: bool)
      requires Valid()
      modifies this
      ensures Valid() && currentMatch == old(currentMatch)
      ensures myPlayerIndex == old(myPlayerIndex) && isSpectator == old(isSpectator)
      ensures currentPlayerIndex == old(currentPlayerIndex) && mode == old(mode)
      ensures canAcceptOrRejectDraw == old(canAcceptOrRejectDraw)
      ensures var name := GetValue(args, "name", "");
              var remote := BoolArg(GetValue(args, "remote", ""));
              ok <==> remote != -1 &&
                      (remote == 0 ==> old(Allowed(conn, args)) && (name == "" || name != old(names[1 - Me()]))) &&
                      (remote == 1 ==> name != "" && name != old(names[Me()]))
      ensures var name := GetValue(args, "name", "");
              var remote := BoolArg(GetValue(args, "remote", ""));
              names == (if ok && remote == 0 && name != "" then old(names)[Me() := name]
                        else if ok && remote == 1 then old(names)[1 - Me() := name]
                        else old(names))
      ensures var name := GetValue(args, "name", "");
              var remote := BoolArg(GetValue(args, "remote", ""));
              outbox == old(outbox) +
                (if remote == 1 then SpectatorSend(conn, "ChessPlayerInfo name=" + name)
                 else if ok && !isSpectator then
                   PeerSend(conn, "ChessPlayerInfo name=" + (if name == "" then old(names[Me()]) else name) + " remote=true")
                 else [])
      ensures old(names[0] != names[1]) ==> names[0] != names[1]
      ensures old(names[0] != "" && names[1] != "") ==> names[0] != "" && names[1] != ""
    {
      var name := GetValue(args, "name", "");
      var remote := BoolArg(GetValue(args, "remote", ""));
      if remote == -1 {
        return false;
      }
      var myName := names[Me()];
      var opponentName := names[1 - Me()];
      if remote == 0 {
        var allowed := SpectatorCheck(conn, GetValue(args, "fromServer", ""));
        if !allowed {
          return false;
        }
        if name != "" {
          if name == opponentName {
            return false;
          }
          names := names[Me() := name];
        } else {
          name := myName;
        }
        if !isSpectator {
          var _ := SetOutgoingData(conn, "ChessPlayerInfo name=" + name + " remote=true");
        }
      } else {
        var _ := SetOutgoingDataToAllSpectators(conn, "ChessPlayerInfo name=" + name);
        if name == "" {
          return false;
        }
        if name == myName {
          return false;
        }
        names := names[1 - Me() := name];
      }
      ok := true;
    }

    /**
     * The announcing step shared by the handlers: a self-issued command must
     * pass `Game::SpectatorCheck` and is sent to the opponent marked
     * `remote=true` unless this peer spectates; a received one is relayed
     * to the spectators.
     */
    method Announce(conn: ConnState, args: Args, line: string) returns (allowed: bool)
      requires BoolArg(GetValue(args, "remote", "")) != -1
      modifies this
      ensures var remote := BoolArg(GetValue(args, "remote", ""));
              allowed <==> (remote == 0 ==> Allowed(conn, args))
      ensures outbox == old(outbox) +
                (if !allowed then [] else Announcement(conn, BoolArg(GetValue(args, "remote", "")), isSpectator, line))
      ensures Session() == old(Session()) && currentMatch == old(currentMatch)
    {
      if BoolArg(GetValue(args, "remote", "")) == 0 {
        allowed := SpectatorCheck(conn, GetValue(args, "fromServer", ""));
        if allowed && !isSpectator {
          var _ := SetOutgoingData(conn, line + " remote=true");
        }
      } else {
        var _ := SetOutgoingDataToAllSpectators(conn, line);
        allowed := true;
      }
    }

    /**
     * The seat resolution of `Game::Event_ChessBegin`: the seat the first
     * player's name picks (-1 for a name of neither seat) and the line to send.
     */
    method ResolveBegin(first: string) returns (start: int, line: string)
      requires |names| == 2
      ensures start == FirstPlayerIndex(first, names[Me()], names[1 - Me()], myPlayerIndex)
      ensures line == BeginLine(first, names[Me()])
    {
      var myName := names[Me()];
      var opponentName := names[1 - Me()];
      var firstName := first;
      start := -1;
      if firstName == "" || firstName == myName {
        start := Me();
        firstName := myName;
      } else if firstName == opponentName {
        start := 1 - Me();
      }
      line := "ChessBegin firstPlayer=" + firstName;
    }

    /** The end of `Game::Event_ChessBegin`: the chosen seat moves first in a new match. */
    method StartMatch(start: int)
      requires Valid()
      modifies this, statics
      ensures Valid() && outbox == old(outbox)
      ensures names == old(names) && myPlayerIndex == old(myPlayerIndex) && isSpectator == old(isSpectator)
      ensures canAcceptOrRejectDraw == old(canAcceptOrRejectDraw)
      ensures currentPlayerIndex == start && mode == Playing &&
              currentMatch != null && fresh(currentMatch) && AtDefaultStart() &&
              statics.player1Turn == (start == 1)
      ensures statics.StagedState() == old(statics.StagedState()) &&
              statics.formerCoords == old(statics.formerCoords) && statics.desiredCoords == old(statics.desiredCoords) &&
              statics.matchEnds == old(statics.matchEnds) && statics.result == old(statics.result)
    {
      currentPlayerIndex := start;
      EnterState(Playing);
    }

    /**
     * `Game::Event_ChessBegin`: needs the models loaded, a readable remote
     * flag and a first player that names one of the two seats. A
     * self-issued command is sent on (with the resolved name) unless this
     * peer spectates; a received one is relayed to the spectators. Then a
     * new match starts from the default board with that seat moving first.
     */
    method EventChessBegin(conn: ConnState, args: Args, modelsLoaded: bool) returns (ok: bool)
      requires Valid()
      modifies this, statics
      ensures Valid()
      ensures names == old(names) && myPlayerIndex == old(myPlayerIndex) && isSpectator == old(isSpectator)
      ensures var first := GetValue(args, "firstPlayer", "");
              var remote := BoolArg(GetValue(args, "remote", ""));
              var start := FirstPlayerIndex(first, old(names[Me()]), old(names[1 - Me()]), myPlayerIndex);
              ok <==> modelsLoaded && remote != -1 && start != -1 && (remote == 0 ==> old(Allowed(conn, args)))
      ensures !ok ==> Session() == old(Session()) && currentMatch == old(currentMatch) &&
                      MatchState() == old(MatchState()) && outbox == old(outbox)
      ensures ok ==> outbox == old(outbox) +
                       Announcement(conn, BoolArg(GetValue(args, "remote", "")), isSpectator,
                                    BeginLine(GetValue(args, "firstPlayer", ""), names[Me()]))
      ensures var start := FirstPlayerIndex(GetValue(args, "firstPlayer", ""), names[Me()], names[1 - Me()], myPlayerIndex);
              ok ==>
                currentPlayerIndex == start && mode == Playing &&
                canAcceptOrRejectDraw == old(canAcceptOrRejectDraw) &&
                currentMatch != null && fresh(currentMatch) && AtDefaultStart() &&
                statics.player1Turn == (start == 1) &&
                statics.StagedState() == old(statics.StagedState()) &&
                statics.formerCoords == old(statics.formerCoords) && statics.desiredCoords == old(statics.desiredCoords) &&
                statics.matchEnds == old(statics.matchEnds) && statics.result == old(statics.result)
    {
      ok := false;
      var remote := BoolArg(GetValue(args, "remote", ""));
      if modelsLoaded && remote != -1 {
        var start, line := ResolveBegin(GetValue(args, "firstPlayer", ""));
        if start != -1 {
          var allowed := Announce(conn, args, line);
          if allowed {
            ghost var sent := outbox;
            assert sent == old(outbox) + Announcement(conn, remote, isSpectator, line);
            StartMatch(start);
            assert outbox == sent && names == old(names) && Me() == old(Me());
            assert start == FirstPlayerIndex(GetValue(args, "firstPlayer", ""), names[Me()], names[1 - Me()], myPlayerIndex);
            ok := true;
          }
        }
      }
    }

    /**
     * The self-issued disconnect a failed `ChessValidate` raises (the only
     * argument is `reason=VALIDATION_FAILED`).
     */
    method FailValidation(conn: ConnState)
      requires Valid()
      modifies this, statics
      ensures Valid()
      ensures names == old(names) && myPlayerIndex == old(myPlayerIndex) && isSpectator == old(isSpectator)
      ensures currentPlayerIndex == old(currentPlayerIndex) && mode == Attract
      ensures outbox == old(outbox) + SendNow(conn, DisconnectLine("VALIDATION_FAILED", isSpectator)) + [DisconnectAll]
      ensures old(mode) != Attract ==>
                currentMatch == null && !canAcceptOrRejectDraw &&
                statics.formerCoords == Coords(0, 0) && statics.desiredCoords == Coords(0, 0) &&
                statics.promoteToPiece == NoPromotion && !statics.matchEnds &&
                statics.result == Undetermined && !statics.player1Turn &&
                statics.autoPromoteToQueen == old(statics.autoPromoteToQueen) &&
                statics.isTeleporting == old(statics.isTeleporting)
      ensures old(mode) == Attract ==> currentMatch == old(currentMatch) && MatchState() == old(MatchState())
    {
      var reasonArgs := [("reason", "VALIDATION_FAILED")];
      assert GetValue(reasonArgs, "reason", "") == "VALIDATION_FAILED";
      assert GetValue(reasonArgs, "remote", "") == "" && GetValue(reasonArgs, "isSpectator", "") == "";
      var _ := EventChessDisconnect(conn, reasonArgs);
    }

    /**
     * The defaults a self-issued `ChessValidate` fills in during a match:
     * each missing or differing value is replaced by the local one.
     */
    method FillValidation(args: Args, localState: string, name0: string, name1: string,
                          turn: int, board: string, stoi: string -> int) returns (line: string)
      ensures line == ValidateLine(args, localState, name0, name1, turn, board, stoi)
    {
      var state := GetValue(args, "state", "");
      var player1 := GetValue(args, "player1", "");
      var player2 := GetValue(args, "player2", "");
      var moveText := GetValue(args, "move", "");
      var boardText := GetValue(args, "board", "");
      var inputMove := if moveText == "" then turn else stoi(moveText);
      if state != "Player1Moving" && state != "Player2Moving" && state != "GameOver" {
        state := localState;
      }
      if player1 != name0 {
        player1 := name0;
      }
      if player2 != name1 {
        player2 := name1;
      }
      if inputMove != turn {
        moveText := IntText(turn);
      }
      if boardText != board {
        boardText := board;
      }
      line := "ChessValidate state=" + state + " player1=" + player1 + " player2=" + player2
              + " move=" + moveText + " board=" + boardText + " remote=true";
    }

    /** The game-state text of the running match, or `GameOver` without one. */
    function LocalState(): string
      reads this, statics
    {
      if currentMatch == null then "GameOver" else GameStateString(statics.matchEnds, statics.player1Turn)
    }

    /** Whether a received `ChessValidate` disagrees with the local game. */
    predicate Mismatch(args: Args, stoi: string -> int)
      reads this, statics, currentMatch, if currentMatch == null then {} else {currentMatch.layout}
      requires Valid()
    {
      if currentMatch == null then GetValue(args, "state", "") != "GameOver"
      else ValidationMismatch(args, LocalState(), names[0], names[1], currentMatch.turnNumber,
                              currentMatch.layout[..], stoi)
    }

    /** The line a self-issued `ChessValidate` sends. */
    function OwnValidation(args: Args, stoi: string -> int): string
      reads this, statics, currentMatch, if currentMatch == null then {} else {currentMatch.layout}
      requires Valid()
    {
      if currentMatch == null then ValidateLineNoMatch(args)
      else ValidateLine(args, LocalState(), names[0], names[1], currentMatch.turnNumber,
                        currentMatch.layout[..], stoi)
    }

    /**
     * `Game::Event_ChessValidate`: a received validation that disagrees
     * with the local game (outside a match, only the state is compared)
     * raises a `VALIDATION_FAILED` disconnect, and one that agrees changes
     * nothing. A self-issued one, refused to a spectator, sends the local
     * values in place of the missing or differing ones.
     */
    method EventChessValidate(conn: ConnState, args: Args, stoi: string -> int) returns (ok: bool)
      requires Valid()
      modifies this, statics
      ensures Valid()
      ensures names == old(names) && myPlayerIndex == old(myPlayerIndex) && isSpectator == old(isSpectator)
      ensures currentPlayerIndex == old(currentPlayerIndex)
      ensures var remote := BoolArg(GetValue(args, "remote", ""));
              ok <==> remote != -1 && (remote == 0 ==> old(Allowed(conn, args)) && !isSpectator)
      ensures var remote := BoolArg(GetValue(args, "remote", ""));
              ok && remote == 1 && old(Mismatch(args, stoi)) ==>
                mode == Attract &&
                outbox == old(outbox) + SendNow(conn, DisconnectLine("VALIDATION_FAILED", isSpectator)) + [DisconnectAll]
      ensures var remote := BoolArg(GetValue(args, "remote", ""));
              !(ok && remote == 1 && old(Mismatch(args, stoi))) ==>
                mode == old(mode) && currentMatch == old(currentMatch) &&
                canAcceptOrRejectDraw == old(canAcceptOrRejectDraw) && MatchState() == old(MatchState())
      ensures var remote := BoolArg(GetValue(args, "remote", ""));
              ok && remote == 0 ==> outbox == old(outbox) + PeerSend(conn, old(OwnValidation(args, stoi)))
      ensures var remote := BoolArg(GetValue(args, "remote", ""));
              !ok || (remote == 1 && !old(Mismatch(args, stoi))) ==> outbox == old(outbox)
    {
      var remote := BoolArg(GetValue(args, "remote", ""));
      if remote == -1 {
        return false;
      }
      if remote == 1 {
        if Mismatch(args, stoi) {
          FailValidation(conn);
        }
        return true;
      }
      var allowed := SpectatorCheck(conn, GetValue(args, "fromServer", ""));
      if !allowed {
        return false;
      }
      if isSpectator {
        return false;
      }
      var line;
      if currentMatch == null {
        var state := GetValue(args, "state", "");
        if state != "Player1Moving" && state != "Player2Moving" && state != "GameOver" {
          state := "GameOver";
        }
        line := "ChessValidate state=" + state + " remote=true";
      } else {
        line := FillValidation(args, LocalState(), names[0], names[1], currentMatch.turnNumber,
                               currentMatch.layout[..], stoi);
      }
      var _ := SetOutgoingData(conn, line);
      ok := true;
    }

    /**
     * `Game::Event_ChessListen`: this peer stops spectating, then listens on
     * the requested port (the previous one when the request is invalid) and
     * takes the first seat. A client connection is dropped first; a
     * listening server only switches port; an uninitialised network refuses.
     */
    method EventChessListen(conn: ConnState, args: Args, prevPort: int,
                            stoi: string -> int, portValid: int -> bool) returns (ok: bool)
      modifies this
      ensures currentMatch == old(currentMatch) && names == old(names) && !isSpectator
      ensures currentPlayerIndex == old(currentPlayerIndex) && mode == old(mode)
      ensures canAcceptOrRejectDraw == old(canAcceptOrRejectDraw)
      ensures var port := ChoosePort(RequestedPort(GetValue(args, "port", ""), prevPort, stoi), prevPort, portValid);
              ok <==> port.Some? && conn != Uninitialized
      ensures ok ==> !myPlayerIndex
      ensures !ok ==> myPlayerIndex == old(myPlayerIndex) && outbox == old(outbox)
      ensures var port := ChoosePort(RequestedPort(GetValue(args, "port", ""), prevPort, stoi), prevPort, portValid);
              ok ==>
                (conn == Idle ==> outbox == old(outbox) + [SetListeningPort(port.value), StartServer]) &&
                (conn == ServerListening ==> outbox == old(outbox) + [SwitchToPort(port.value)]) &&
                (conn == ClientConnecting || conn == ClientConnected ==>
                   outbox == old(outbox) + [ClientDisconnect, SetListeningPort(port.value), StartServer])
    {
      var portText := GetValue(args, "port", "");
      var requested := RequestedPort(portText, prevPort, stoi);
      isSpectator := false;
      var port := requested;
      if !portValid(requested) {
        if !portValid(prevPort) {
          return false;
        }
        port := prevPort;
      }
      match conn {
        case Idle =>
          outbox := outbox + [SetListeningPort(port), StartServer];
        case ServerListening =>
          outbox := outbox + [SwitchToPort(port)];
        case ClientConnecting =>
          outbox := outbox + [ClientDisconnect, SetListeningPort(port), StartServer];
        case ClientConnected =>
          outbox := outbox + [ClientDisconnect, SetListeningPort(port), StartServer];
        case Uninitialized =>
          return false;
      }
      myPlayerIndex := false;
      ok := true;
    }

    /**
     * `Game::Event_ChessConnect`: connects to the requested address and
     * port (each falling back to the previous one when invalid), as a
     * spectator when `isSpectator=true`, and takes the second seat. A
     * listening server is stopped first; a client only switches target; an
     * uninitialised network refuses. The spectator flag is set before the
     * network state is examined.
     */
    method EventChessConnect(conn: ConnState, args: Args, prevPort: int, prevIP: string,
                             stoi: string -> int, portValid: int -> bool, ipValid: string -> bool)
      returns (ok: bool)
      modifies this
      ensures currentMatch == old(currentMatch) && names == old(names)
      ensures currentPlayerIndex == old(currentPlayerIndex) && mode == old(mode)
      ensures canAcceptOrRejectDraw == old(canAcceptOrRejectDraw)
      ensures var port := ChoosePort(RequestedPort(GetValue(args, "port", ""), prevPort, stoi), prevPort, portValid);
              var ip := ChooseAddress(GetValue(args, "ip", ""), prevIP, ipValid);
              var spectate := BoolArg(GetValue(args, "isSpectator", ""));
              (ok <==> port.Some? && ip.Some? && spectate != -1 && conn != Uninitialized) &&
              (port.Some? && ip.Some? && spectate != -1 ==> isSpectator == (spectate == 1)) &&
              (!(port.Some? && ip.Some? && spectate != -1) ==> isSpectator == old(isSpectator))
      ensures ok ==> myPlayerIndex
      ensures !ok ==> myPlayerIndex == old(myPlayerIndex) && outbox == old(outbox)
      ensures var port := ChoosePort(RequestedPort(GetValue(args, "port", ""), prevPort, stoi), prevPort, portValid);
              var ip := ChooseAddress(GetValue(args, "ip", ""), prevIP, ipValid);
              ok ==>
                (conn == Idle ==>
                   outbox == old(outbox) + [SetListeningPort(port.value), SetServerAddress(ip.value), StartClient]) &&
                (conn == ServerListening ==>
                   outbox == old(outbox) + [ServerDisconnect, SetListeningPort(port.value), SetServerAddress(ip.value), StartClient]) &&
                (conn == ClientConnecting || conn == ClientConnected ==>
                   outbox == old(outbox) + [SwitchToPortAndAddress(port.value, ip.value)])
    {
      var portText := GetValue(args, "port", "");
      var requested := RequestedPort(portText, prevPort, stoi);
      var port := requested;
      if !portValid(requested) {
        if !portValid(prevPort) {
          return false;
        }
        port := prevPort;
      }
      var ipText := GetValue(args, "ip", "");
      var ip := if ipText == "" then prevIP else ipText;
      if !ipValid(ip) {
        if !ipValid(prevIP) {
          return false;
        }
        ip := prevIP;
      }
      var spectate := BoolArg(GetValue(args, "isSpectator", ""));
      if spectate == -1 {
        return false;
      }
      isSpectator := spectate == 1;
      match conn {
        case Idle =>
          outbox := outbox + [SetListeningPort(port), SetServerAddress(ip), StartClient];
        case ServerListening =>
          outbox := outbox + [ServerDisconnect, SetListeningPort(port), SetServerAddress(ip), StartClient];
        case ClientConnecting =>
          outbox := outbox + [SwitchToPortAndAddress(port, ip)];
        case ClientConnected =>
          outbox := outbox + [SwitchToPortAndAddress(port, ip)];
        case Uninitialized =>
          return false;
      }
      myPlayerIndex := true;
      ok := true;
    }

    /**
     * `Game::Event_RemoteCmd`: the named command with every other pair, in
     * key order, marked `remote=true`, goes to the opponent.
     */
    method EventRemoteCmd(conn: ConnState, args: Args) returns (ok: bool)
      modifies this
      ensures ok
      ensures outbox == old(outbox) + PeerSend(conn, GetValue(args, "cmd", "") + ArgsText(args, {"cmd"}) + " remote=true")
      ensures Session() == old(Session()) && currentMatch == old(currentMatch)
    {
      var line := CommandLine(GetValue(args, "cmd", ""), args, {"cmd"});
      line := line + " remote=true";
      var _ := SetOutgoingData(conn, line);
      ok := true;
    }
  }
}
