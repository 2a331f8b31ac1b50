// The page script's controller: the module-level variables become the fields
// of one object, and each handler a method that updates them in place. Every
// method is proved to do exactly what its counterpart in module Rules says.

module Game {
  import opened Grid
  import Strategy
  import Rules

  class Controller {
    /** `gameState`: the board array, filled in place, never replaced. */
    const gameState: array<Cell>
    var currentPlayer: Cell
    var gameActive: bool
    var playerScore: nat
    var systemScore: nat
    var rounds: nat
    var difficulty: string
    var difficultyChangedDuringGame: bool
    /** The text of the response area (`displayResponse`). */
    var response: string

    /** The fields as a value of the state machine. */
    ghost function Snapshot(): Rules.State
      reads this, gameState
      requires gameState.Length == 9
    {
      Rules.State(gameState[..], currentPlayer, gameActive, playerScore, systemScore,
                  rounds, difficulty, difficultyChangedDuringGame, response)
    }

    /** The object invariant: nine cells and the state machine's invariant. */
    ghost predicate Valid()
      reads this, gameState
    {
      gameState.Length == 9 && Rules.Inv(Snapshot())
    }

    /** The script's initial values. */
    constructor ()
      ensures Valid() && fresh(gameState)
      ensures Snapshot() == Rules.Initial()
    {
      gameState := new Cell[9](_ => Empty);
      currentPlayer := X;
      gameActive := true;
      playerScore := 0;
      systemScore := 0;
      rounds := 0;
      difficulty := "medium";
      difficultyChangedDuringGame := false;
      response := "";
      new;
      assert gameState[..] == EmptyBoard();
      Rules.InitialInv();
    }

    /** `displayResponse`. */
    method DisplayResponse(message: string)
      requires gameState.Length == 9
      modifies this
      ensures Snapshot() == old(Snapshot()).(response := message)
    {
      response := message;
    }

    /** `updateRounds`. */
    method UpdateRounds()
      requires gameState.Length == 9
      modifies this
      ensures Snapshot() == Rules.UpdateRounds(old(Snapshot()))
    {
      if !difficultyChangedDuringGame {
        rounds := rounds + 1;
      }
      difficultyChangedDuringGame := false;
    }

    /** `updateScore`. */
    method UpdateScore(winner: Rules.Winner)
      requires gameState.Length == 9
      modifies this
      ensures Snapshot() == Rules.UpdateScore(old(Snapshot()), winner)
    {
      gameActive := false;
      match winner {
        case Player => playerScore := playerScore + 1;
        case System => systemScore := systemScore + 1;
      }
      UpdateRounds();
    }

    /** `resetBoard`, also the restart button's listener. */
    method ResetBoard()
      requires gameState.Length == 9
      modifies this, gameState
      ensures Snapshot() == Rules.ResetBoard(old(Snapshot()))
      ensures Valid()
    {
      forall i | 0 <= i < gameState.Length {
        gameState[i] := Empty;
      }
      assert gameState[..] == EmptyBoard();
      currentPlayer := X;
      gameActive := true;
      DisplayResponse("");
      Rules.ResetBoardEstablishesInv(old(Snapshot()));
    }

    /** The difficulty selector's change listener. */
    method ChangeDifficulty(value: string)
      requires Valid()
      modifies this, gameState
      ensures Valid()
      ensures Snapshot() == Rules.ChangeDifficulty(old(Snapshot()), value)
    {
      if gameActive {
        difficultyChangedDuringGame := true;
        ResetBoard();
      }
      difficulty := value;
      Rules.ResetBoardEstablishesInv(old(Snapshot()).(difficultyChangedDuringGame := true));
    }

    /** The clear-scores button's listener. */
    method ClearScores()
      requires Valid()
      modifies this, gameState
      ensures Valid()
      ensures Snapshot() == Rules.ClearScores(old(Snapshot()))
    {
      playerScore := 0;
      systemScore := 0;
      rounds := 0;
      ResetBoard();
    }

    /**
     * `handlePlayerMove`: a click on cell `index`. `systemMovePending` says
     * whether the system's move was scheduled (`setTimeout`); the environment
     * then calls HandleSystemMove, possibly after other events.
     */
    method HandlePlayerMove(index: int) returns (systemMovePending: bool)
      requires Valid()
      modifies this, gameState
      ensures Valid()
      ensures Snapshot() == Rules.PlayerMove(old(Snapshot()), index)
      ensures systemMovePending <==> Rules.Accepted(old(Snapshot()), index) && gameActive
    {
      ghost var before := Snapshot();
      Rules.PlayerMoveKeepsInv(before, index);
      systemMovePending := false;
      if !gameActive || !(0 <= index < gameState.Length) || gameState[index] != Empty {
        return;
      }

      gameState[index] := currentPlayer;
      assert gameState[..] == before.board[index := currentPlayer];

      if CheckWinner(gameState[..], currentPlayer) {
        DisplayResponse(Rules.PlayerWinsMessage(currentPlayer));
        UpdateScore(Rules.Player);
        return;
      }

      if Empty !in gameState[..] {
        DisplayResponse(Rules.PlayerDrawMessage);
        gameActive := false;
        UpdateRounds();
        return;
      }

      currentPlayer := O;
      systemMovePending := true;
    }

    /**
     * `handleSystemMove`, run from the timer. `coin` and `pick` are the
     * strategy's random draws.
     */
    method HandleSystemMove(coin: bool, pick: nat)
      requires Valid()
      modifies this, gameState
      ensures Valid()
      ensures Snapshot() == Rules.SystemMove(old(Snapshot()), coin, pick)
    {
      if !gameActive {
        return;
      }

      var moveIndex := Strategy.FindBestMove(difficulty, gameState[..], coin, pick);
      assert Rules.SystemMove(Snapshot(), coin, pick) == Rules.SystemMoveAt(Snapshot(), moveIndex);
      PlaceSystemMark(moveIndex);
    }

    /** The rest of `handleSystemMove` once the strategy has chosen the empty cell `moveIndex`. */
    method PlaceSystemMark(moveIndex: Index)
      requires Valid() && gameActive && gameState[moveIndex] == Empty
      modifies this, gameState
      ensures Valid()
      ensures Snapshot() == Rules.SystemMoveAt(old(Snapshot()), moveIndex)
    {
      ghost var before := Snapshot();
      Rules.SystemMoveAtKeepsInv(before, moveIndex);

      gameState[moveIndex] := currentPlayer;
      assert gameState[..] == before.board[moveIndex := currentPlayer];

      if CheckWinner(gameState[..], currentPlayer) {
        DisplayResponse(Rules.SystemWinsMessage(currentPlayer));
        UpdateScore(Rules.System);
        return;
      }

      if Empty !in gameState[..] {
        DisplayResponse(Rules.SystemDrawMessage);
        gameActive := false;
        UpdateRounds();
        return;
      }

      currentPlayer := X;
    }
  }
}
