/**
  The game state the browser client (script.js) keeps in its globals, and the
  handlers that read or change it, without their page writes: the result
  check, a click on a cell, the local-game reset, going home and the
  reconnect counter change it; the status line only reads it.
*/
module Client {
  import opened Wrappers
  import opened Board
  import opened GameRules

  /** 'online' or 'local'. */
  datatype Mode = Online | Local

  /** The makeMove payload the client sends in online mode. */
  datatype MoveRequest = MoveRequest(roomId: string, cellIndex: nat, player: Symbol)

  /** What the status line shows. */
  datatype Hint = NoHint | YourTurn | WaitingForOpponent
  datatype Status = Victory(winner: Symbol) | Draw | Turn(player: Symbol, hint: Hint)

  /** What a lost connection leads to. */
  datatype ReconnectDecision = Unaffected | Retry(attempt: nat) | GiveUp

  /** `MAX_RECONNECT_ATTEMPTS`. */
  const MaxReconnectAttempts: nat := 3

  class GameClient {
    var gameActive: bool
    var currentPlayer: Symbol
    var gameState: seq<Cell>
    /** The symbol this browser plays; None stands for ''. */
    var playerSymbol: Option<Symbol>
    var currentRoom: string
    var gameMode: Mode
    var connectionAttempts: nat

    /**
      The board has nine cells, and the reconnect counter stays bounded: at
      most one past the limit, and within it while an online game is active.
    */
    ghost predicate Valid()
      reads this
    {
      && |gameState| == Cells
      && connectionAttempts <= MaxReconnectAttempts + 1
      && (gameActive && gameMode == Online ==> connectionAttempts <= MaxReconnectAttempts)
    }

    /** The globals' initial values (script.js:3-10). */
    constructor ()
      ensures Valid()
      ensures !gameActive && currentPlayer == X && gameState == EmptyBoard()
      ensures playerSymbol == None && currentRoom == "" && gameMode == Online && connectionAttempts == 0
    {
      gameActive := false;
      currentPlayer := X;
      gameState := EmptyBoard();
      playerSymbol := None;
      currentRoom := "";
      gameMode := Online;
      connectionAttempts := 0;
    }

    /** checkGameResult: a won line or a full board ends the game; otherwise nothing changes. */
    method CheckGameResult()
      requires Valid()
      modifies this`gameActive
      ensures Valid()
      ensures gameActive == (old(gameActive) && !HasWin(gameState) && !Full(gameState))
    {
      var roundWon := false;
      var i := 0;
      while i < |WinningLines|
        invariant 0 <= i <= |WinningLines|
        invariant !roundWon
        invariant forall j :: 0 <= j < i ==> !Won(gameState, j)
      {
        var (a, b, c) := WinningLines[i];
        if gameState[a] != Empty && gameState[a] == gameState[b] && gameState[a] == gameState[c] {
          assert Won(gameState, i);
          roundWon := true;
          break;
        }
        i := i + 1;
      }
      if roundWon {
        gameActive := false;
        return;
      }
      if Empty !in gameState {
        gameActive := false;
      }
    }

    /**
      updateStatus: the first won line in the listed order names the winner;
      otherwise a full board is a draw; otherwise it is currentPlayer's turn,
      with an online hint saying whose.
    */
    method UpdateStatus() returns (status: Status)
      requires |gameState| == Cells
      ensures status.Victory? <==> HasWin(gameState)
      ensures status.Victory? ==>
        exists i :: && 0 <= i < |WinningLines| && Won(gameState, i)
                    && LineOwner(gameState, i) == Mark(status.winner)
                    && (forall j :: 0 <= j < i ==> !Won(gameState, j))
      ensures status.Draw? <==> !HasWin(gameState) && Full(gameState)
      ensures status.Turn? ==> status.player == currentPlayer
      ensures status.Turn? ==>
        status.hint == (if gameMode == Local then NoHint
                        else if playerSymbol == Some(currentPlayer) then YourTurn
                        else WaitingForOpponent)
    {
      var winner: Option<Symbol> := None;
      var i := 0;
      while i < |WinningLines|
        invariant 0 <= i <= |WinningLines|
        invariant winner == None
        invariant forall j :: 0 <= j < i ==> !Won(gameState, j)
      {
        var (a, b, c) := WinningLines[i];
        if gameState[a] != Empty && gameState[a] == gameState[b] && gameState[a] == gameState[c] {
          assert Won(gameState, i) && LineOwner(gameState, i) == gameState[a];
          winner := Some(gameState[a].symbol);
          break;
        }
        i := i + 1;
      }
      if winner != None {
        return Victory(winner.value);
      }
      if Empty !in gameState {
        return Draw;
      }
      var hint := NoHint;
      if gameMode == Online {
        hint := if playerSymbol == Some(currentPlayer) then YourTurn else WaitingForOpponent;
      }
      status := Turn(currentPlayer, hint);
    }

    /**
      handleCellClick on cell `cellIndex`: ignored on an occupied cell, a
      finished game, or (online) when it is not this browser's turn. Online it
      sends the move to the server; locally it marks the cell, checks the
      result, and passes the turn only if the game goes on.
    */
    method HandleCellClick(cellIndex: nat) returns (sent: Option<MoveRequest>)
      requires Valid() && cellIndex < Cells
      modifies this
      ensures Valid()
      ensures gameMode == old(gameMode) && playerSymbol == old(playerSymbol)
      ensures currentRoom == old(currentRoom) && connectionAttempts == old(connectionAttempts)
      ensures var ignored := old(gameState)[cellIndex] != Empty || !old(gameActive)
                || (old(gameMode) == Online && playerSymbol != Some(old(currentPlayer)));
        && (ignored || gameMode == Online ==>
              gameState == old(gameState) && currentPlayer == old(currentPlayer) && gameActive == old(gameActive))
        && (ignored || gameMode == Local ==> sent == None)
        && (!ignored && gameMode == Online ==> sent == Some(MoveRequest(currentRoom, cellIndex, currentPlayer)))
        && (!ignored && gameMode == Local ==>
              && gameState == old(gameState)[cellIndex := Mark(old(currentPlayer))]
              && gameActive == (!HasWin(gameState) && !Full(gameState))
              && currentPlayer == if gameActive then Other(old(currentPlayer)) else old(currentPlayer))
    {
      sent := None;
      if gameState[cellIndex] != Empty || !gameActive {
        return;
      }
      if gameMode == Online && Some(currentPlayer) != playerSymbol {
        return;
      }
      if gameMode == Local {
        gameState := gameState[cellIndex := Mark(currentPlayer)];
        CheckGameResult();
        if gameActive {
          currentPlayer := Other(currentPlayer);
        }
      } else {
        sent := Some(MoveRequest(currentRoom, cellIndex, playerSymbol.value));
      }
    }

    /** startLocalGame: a fresh local game with X to move. */
    method StartLocalGame()
      requires Valid()
      modifies this
      ensures Valid()
      ensures gameMode == Local && currentPlayer == X && playerSymbol == Some(X) && gameActive
      ensures |gameState| == Cells && forall i :: 0 <= i < Cells ==> gameState[i] == Empty
      ensures currentRoom == old(currentRoom) && connectionAttempts == old(connectionAttempts)
    {
      gameMode := Local;
      currentPlayer := X;
      playerSymbol := Some(X);
      gameState := EmptyBoard();
      gameActive := true;
    }

    /** resetToHome: leave the room and end the game. */
    method ResetToHome()
      requires |gameState| == Cells && connectionAttempts <= MaxReconnectAttempts + 1
      modifies this
      ensures Valid()
      ensures currentRoom == "" && playerSymbol == None && !gameActive
      ensures gameState == old(gameState) && currentPlayer == old(currentPlayer)
      ensures gameMode == old(gameMode) && connectionAttempts == old(connectionAttempts)
    {
      currentRoom := "";
      playerSymbol := None;
      gameActive := false;
    }

    /** The socket's 'connect' event clears the counter. */
    method OnConnect()
      requires Valid()
      modifies this`connectionAttempts
      ensures Valid() && connectionAttempts == 0
    {
      connectionAttempts := 0;
    }

    /**
      The socket's 'disconnect' event: during an active online game the
      counter goes up; up to the limit a reconnect is scheduled, past it the
      client gives up and goes home. Otherwise nothing changes.
    */
    method OnDisconnect() returns (d: ReconnectDecision)
      requires Valid()
      modifies this
      ensures Valid()
      ensures gameState == old(gameState) && currentPlayer == old(currentPlayer) && gameMode == old(gameMode)
      ensures !(old(gameActive) && old(gameMode) == Online) ==>
        && d == Unaffected && connectionAttempts == old(connectionAttempts) && gameActive == old(gameActive)
        && currentRoom == old(currentRoom) && playerSymbol == old(playerSymbol)
      ensures old(gameActive) && old(gameMode) == Online ==> connectionAttempts == old(connectionAttempts) + 1
      ensures d.Retry? <==> old(gameActive) && old(gameMode) == Online && connectionAttempts <= MaxReconnectAttempts
      ensures d.Retry? ==>
        && d.attempt == connectionAttempts && 1 <= d.attempt <= MaxReconnectAttempts
        && gameActive && currentRoom == old(currentRoom) && playerSymbol == old(playerSymbol)
      ensures d == Unaffected <==> !(old(gameActive) && old(gameMode) == Online)
      ensures d == GiveUp ==> !gameActive && currentRoom == "" && playerSymbol == None
    {
      d := Unaffected;
      if gameActive && gameMode == Online {
        connectionAttempts := connectionAttempts + 1;
        if connectionAttempts <= MaxReconnectAttempts {
          d := Retry(connectionAttempts);
        } else {
          ResetToHome();
          d := GiveUp;
        }
      }
    }
  }
}
