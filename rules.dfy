// The round/turn state machine as functions on the game's state: one
// function per handler of the page script, the invariant every handler
// keeps, and the properties of round ends, scores and round counting.

module Rules {
  import opened Grid
  import opened Strategy

  /** Who `updateScore` credits. */
  datatype Winner = Player | System

  /** The page script's module-level variables. */
  datatype State = State(
    board: Board,
    currentPlayer: Cell,
    gameActive: bool,
    playerScore: nat,
    systemScore: nat,
    rounds: nat,
    difficulty: string,
    difficultyChangedDuringGame: bool,
    response: string)

  /** The values the script starts with; the response text starts empty. */
  function Initial(): State {
    State(EmptyBoard(), X, true, 0, 0, 0, "medium", false, "")
  }

  /**
   * The invariant of the state machine: the current player is a mark, and
   * while the round is active the board has an empty cell and no line is
   * complete.
   */
  predicate Inv(s: State) {
    (s.currentPlayer == X || s.currentPlayer == O) &&
    (s.gameActive ==> Empty in s.board && NoLineCompleted(s.board))
  }

  // ---------------------------------------------------------------------
  // Messages written to the response area.

  function MarkText(c: Cell): string {
    match c
    case Empty => ""
    case X => "X"
    case O => "O"
  }

  function PlayerWinsMessage(c: Cell): string {
    "Player " + MarkText(c) + " wins! Restart The Game."
  }

  function SystemWinsMessage(c: Cell): string {
    "System (" + MarkText(c) + ") wins! Restart The Game."
  }

  const PlayerDrawMessage := "It's a draw! Restart The Game."
  const SystemDrawMessage := "It's a draw! Restart The Game"

  // ---------------------------------------------------------------------
  // The handlers.

  /** `updateRounds`: count the round unless the difficulty changed during it; clear the flag. */
  function UpdateRounds(s: State): State {
    s.(rounds := if s.difficultyChangedDuringGame then s.rounds else s.rounds + 1,
       difficultyChangedDuringGame := false)
  }

  /** `updateScore`: end the round, credit the winner, count the round. */
  function UpdateScore(s: State, winner: Winner): State {
    var ended := s.(gameActive := false);
    var scored :=
      match winner
      case Player => ended.(playerScore := ended.playerScore + 1)
      case System => ended.(systemScore := ended.systemScore + 1);
    UpdateRounds(scored)
  }

  /** `resetBoard`: empty board, "X" to move, round active, response cleared. */
  function ResetBoard(s: State): State {
    s.(board := EmptyBoard(), currentPlayer := X, gameActive := true, response := "")
  }

  /** The difficulty selector's change listener. */
  function ChangeDifficulty(s: State, value: string): State {
    var t := if s.gameActive then ResetBoard(s.(difficultyChangedDuringGame := true)) else s;
    t.(difficulty := value)
  }

  /** The clear-scores button's listener. */
  function ClearScores(s: State): State {
    ResetBoard(s.(playerScore := 0, systemScore := 0, rounds := 0))
  }

  /** `handlePlayerMove`: a click on cell `index`. */
  function PlayerMove(s: State, index: int): State {
    if !s.gameActive || !(0 <= index < 9) || s.board[index] != Empty then s
    else
      var marked := s.(board := s.board[index := s.currentPlayer]);
      if CheckWinner(marked.board, s.currentPlayer) then
        UpdateScore(marked.(response := PlayerWinsMessage(s.currentPlayer)), Player)
      else if Empty !in marked.board then
        UpdateRounds(marked.(response := PlayerDrawMessage, gameActive := false))
      else
        marked.(currentPlayer := O)
  }

  /**
   * `handleSystemMove`, the deferred callback: the strategy of the current
   * difficulty chooses the cell, with `coin` and `pick` as its random draws.
   */
  function SystemMove(s: State, coin: bool, pick: nat): State
    requires s.gameActive ==> Empty in s.board
  {
    if !s.gameActive then s
    else SystemMoveAt(s, FindBestMove(s.difficulty, s.board, coin, pick))
  }

  /** The rest of `handleSystemMove` once the strategy has chosen `moveIndex`. */
  function SystemMoveAt(s: State, moveIndex: Index): State {
    var marked := s.(board := s.board[moveIndex := s.currentPlayer]);
    if CheckWinner(marked.board, s.currentPlayer) then
      UpdateScore(marked.(response := SystemWinsMessage(s.currentPlayer)), System)
    else if Empty !in marked.board then
      UpdateRounds(marked.(response := SystemDrawMessage, gameActive := false))
    else
      marked.(currentPlayer := X)
  }

  // ---------------------------------------------------------------------
  // The invariant holds initially and every handler keeps it.

  lemma InitialInv()
    ensures Inv(Initial())
  {
    assert Initial().board[0] == Empty;
  }

  lemma {:induction false} ResetBoardEstablishesInv(s: State)
    ensures Inv(ResetBoard(s))
  {
    assert ResetBoard(s).board[0] == Empty;
  }

  lemma {:induction false} PlayerMoveKeepsInv(s: State, index: int)
    requires Inv(s)
    ensures Inv(PlayerMove(s, index))
  {
    if s.gameActive && 0 <= index < 9 && s.board[index] == Empty {
      var b := s.board[index := s.currentPlayer];
      if !CheckWinner(b, s.currentPlayer) && Empty in b {
        MarkingWithoutWinKeepsBoardOpen(s.board, index, s.currentPlayer);
      }
    }
  }

  lemma {:induction false} SystemMoveAtKeepsInv(s: State, moveIndex: Index)
    requires Inv(s) && s.gameActive && s.board[moveIndex] == Empty
    ensures Inv(SystemMoveAt(s, moveIndex))
  {
    var b := s.board[moveIndex := s.currentPlayer];
    if !CheckWinner(b, s.currentPlayer) && Empty in b {
      MarkingWithoutWinKeepsBoardOpen(s.board, moveIndex, s.currentPlayer);
    }
  }

  lemma {:induction false} SystemMoveKeepsInv(s: State, coin: bool, pick: nat)
    requires Inv(s)
    ensures Inv(SystemMove(s, coin, pick))
  {
    if s.gameActive {
      SystemMoveAtKeepsInv(s, FindBestMove(s.difficulty, s.board, coin, pick));
    }
  }

  // ---------------------------------------------------------------------
  // What each handler does.

  /** A click the player handler acts on: round active, cell on the board and empty. */
  predicate Accepted(s: State, index: int) {
    s.gameActive && 0 <= index < 9 && s.board[index] == Empty
  }

  /** A click on an occupied cell, off the board, or after the round ended changes nothing. */
  lemma IgnoredClickIsNoOp(s: State, index: int)
    requires !Accepted(s, index)
    ensures PlayerMove(s, index) == s
  {
  }

  /** Clicking the same cell twice is the same as clicking it once. */
  lemma PlayerMoveIdempotent(s: State, index: int)
    requires Inv(s)
    ensures PlayerMove(PlayerMove(s, index), index) == PlayerMove(s, index)
  {
    if Accepted(s, index) {
      assert PlayerMove(s, index).board[index] == s.currentPlayer;
    }
  }

  /**
   * An accepted click marks the cell with the current player's mark; the
   * round ends exactly when that completes a line or fills the board; a
   * win credits the player with exactly one point, a draw credits nobody;
   * a round end counts the round unless the difficulty changed during it
   * and clears that flag, leaving the mark to move as it was; otherwise
   * the turn passes to "O".
   */
  lemma PlayerMoveOutcome(s: State, index: int)
    requires Accepted(s, index)
    ensures var t := PlayerMove(s, index);
      var won := CheckWinner(t.board, s.currentPlayer);
      && t.board == s.board[index := s.currentPlayer]
      && (!t.gameActive <==> won || Empty !in t.board)
      && t.playerScore == s.playerScore + (if won then 1 else 0)
      && t.systemScore == s.systemScore
      && t.difficulty == s.difficulty
      && (won ==> t.response == PlayerWinsMessage(s.currentPlayer))
      && (!won && !t.gameActive ==> t.response == PlayerDrawMessage)
      && (!t.gameActive ==>
            t.rounds == s.rounds + (if s.difficultyChangedDuringGame then 0 else 1) &&
            !t.difficultyChangedDuringGame && t.currentPlayer == s.currentPlayer)
      && (t.gameActive ==>
            t.currentPlayer == O && t.rounds == s.rounds && t.response == s.response &&
            t.difficultyChangedDuringGame == s.difficultyChangedDuringGame)
  {
  }

  /**
   * The system's move marks one cell that was empty with the current
   * player's mark, and ends the round, scores and counts exactly as a
   * player move does, crediting the system; otherwise the turn passes to "X".
   */
  lemma SystemMoveOutcome(s: State, coin: bool, pick: nat)
    requires s.gameActive && Empty in s.board
    ensures var t := SystemMove(s, coin, pick);
      var won := CheckWinner(t.board, s.currentPlayer);
      && (exists i: Index :: s.board[i] == Empty && t.board == s.board[i := s.currentPlayer])
      && (!t.gameActive <==> won || Empty !in t.board)
      && t.systemScore == s.systemScore + (if won then 1 else 0)
      && t.playerScore == s.playerScore
      && t.difficulty == s.difficulty
      && (won ==> t.response == SystemWinsMessage(s.currentPlayer))
      && (!won && !t.gameActive ==> t.response == SystemDrawMessage)
      && (!t.gameActive ==>
            t.rounds == s.rounds + (if s.difficultyChangedDuringGame then 0 else 1) &&
            !t.difficultyChangedDuringGame && t.currentPlayer == s.currentPlayer)
      && (t.gameActive ==>
            t.currentPlayer == X && t.rounds == s.rounds && t.response == s.response &&
            t.difficultyChangedDuringGame == s.difficultyChangedDuringGame)
  {
    var moveIndex := FindBestMove(s.difficulty, s.board, coin, pick);
    assert SystemMove(s, coin, pick).board == s.board[moveIndex := s.currentPlayer];
  }

  /** After the round has ended the deferred system move changes nothing. */
  lemma SystemMoveAfterRoundIsNoOp(s: State, coin: bool, pick: nat)
    requires !s.gameActive
    ensures SystemMove(s, coin, pick) == s
  {
  }

  /**
   * `resetBoard` starts a fresh active round with "X" to move and an empty
   * response, and keeps scores, rounds, the flag and the difficulty.
   */
  lemma ResetBoardOutcome(s: State)
    ensures var t := ResetBoard(s);
      && Inv(t)
      && (forall i: Index :: t.board[i] == Empty)
      && t.currentPlayer == X && t.gameActive && t.response == ""
      && t.playerScore == s.playerScore && t.systemScore == s.systemScore && t.rounds == s.rounds
      && t.difficultyChangedDuringGame == s.difficultyChangedDuringGame
      && t.difficulty == s.difficulty
  {
    ResetBoardEstablishesInv(s);
  }

  /**
   * A difficulty change during a round flags the round and resets the
   * board without counting it; after the round it only sets the difficulty.
   */
  lemma ChangeDifficultyOutcome(s: State, value: string)
    ensures var t := ChangeDifficulty(s, value);
      && t.difficulty == value
      && t.playerScore == s.playerScore && t.systemScore == s.systemScore && t.rounds == s.rounds
      && (s.gameActive ==>
            t.difficultyChangedDuringGame && t.gameActive && t.currentPlayer == X &&
            t.board == EmptyBoard() && t.response == "")
      && (!s.gameActive ==> t == s.(difficulty := value))
  {
  }

  /** Clear-scores zeroes the three counters and resets the board. */
  lemma ClearScoresOutcome(s: State)
    ensures var t := ClearScores(s);
      && t.playerScore == 0 && t.systemScore == 0 && t.rounds == 0
      && t.board == EmptyBoard() && t.currentPlayer == X && t.gameActive && t.response == ""
      && t.difficulty == s.difficulty
      && t.difficultyChangedDuringGame == s.difficultyChangedDuringGame
  {
  }

  // ---------------------------------------------------------------------
  // Runs of events.

  /** The events the script reacts to, one at a time in arrival order. */
  datatype Event =
    | Click(index: int)
    | SystemTimer(coin: bool, pick: nat)
    | DifficultyChange(value: string)
    | Restart
    | ClearScoresClick

  /** One event, dispatched to its handler. */
  function Step(s: State, e: Event): (t: State)
    requires Inv(s)
    ensures Inv(t)
  {
    match e
    case Click(index) =>
      PlayerMoveKeepsInv(s, index);
      PlayerMove(s, index)
    case SystemTimer(coin, pick) =>
      SystemMoveKeepsInv(s, coin, pick);
      SystemMove(s, coin, pick)
    case DifficultyChange(value) =>
      ResetBoardEstablishesInv(s.(difficultyChangedDuringGame := true));
      ChangeDifficulty(s, value)
    case Restart =>
      ResetBoardEstablishesInv(s);
      ResetBoard(s)
    case ClearScoresClick =>
      ResetBoardEstablishesInv(s.(playerScore := 0, systemScore := 0, rounds := 0));
      ClearScores(s)
  }

  /**
   * A sequence of events. The invariant holds after any run, and without a
   * clear-scores event the scores and the round count never go down.
   */
  function Run(s: State, events: seq<Event>): (t: State)
    requires Inv(s)
    ensures Inv(t)
    ensures (forall e | e in events :: !e.ClearScoresClick?) ==>
      t.playerScore >= s.playerScore && t.systemScore >= s.systemScore && t.rounds >= s.rounds
    decreases |events|
  {
    if events == [] then s
    else
      assert forall e | e in events[1..] :: e in events;
      assert events[0] in events;
      StepKeepsCounters(s, events[0]);
      Run(Step(s, events[0]), events[1..])
  }

  /** Only clear-scores lowers a score or the round count. */
  lemma StepKeepsCounters(s: State, e: Event)
    requires Inv(s)
    ensures !e.ClearScoresClick? ==>
      var t := Step(s, e);
      t.playerScore >= s.playerScore && t.systemScore >= s.systemScore && t.rounds >= s.rounds
  {
    match e
    case Click(index) =>
      if Accepted(s, index) {
        PlayerMoveOutcome(s, index);
      }
    case SystemTimer(coin, pick) =>
      if s.gameActive {
        SystemMoveOutcome(s, coin, pick);
      }
    case DifficultyChange(value) =>
      ChangeDifficultyOutcome(s, value);
    case Restart =>
    case ClearScoresClick =>
  }

  /** The event ends the active round. */
  predicate EndsRound(s: State, e: Event)
    requires Inv(s)
  {
    s.gameActive && !Step(s, e).gameActive
  }

  /** How many rounds end during a run. */
  function RoundEnds(s: State, events: seq<Event>): nat
    requires Inv(s)
    decreases |events|
  {
    if events == [] then 0
    else (if EndsRound(s, events[0]) then 1 else 0) + RoundEnds(Step(s, events[0]), events[1..])
  }

  /** Events that neither change the difficulty nor clear the scores. */
  predicate Undisturbed(events: seq<Event>) {
    forall e | e in events :: e.Click? || e.SystemTimer? || e.Restart?
  }

  /** One move or restart: the round count goes up exactly when an unflagged round ends. */
  lemma StepCountsRound(s: State, e: Event)
    requires Inv(s) && (e.Click? || e.SystemTimer? || e.Restart?)
    ensures var t := Step(s, e);
      && t.rounds == s.rounds + (if EndsRound(s, e) && !s.difficultyChangedDuringGame then 1 else 0)
      && t.difficultyChangedDuringGame == (s.difficultyChangedDuringGame && !EndsRound(s, e))
  {
    match e
    case Click(index) =>
      if Accepted(s, index) {
        PlayerMoveOutcome(s, index);
      }
    case SystemTimer(coin, pick) =>
      if s.gameActive {
        SystemMoveOutcome(s, coin, pick);
      }
    case Restart =>
  }

  /**
   * Round counting: without further difficulty changes or clearing, every
   * round that ends is counted, except the first one when the difficulty
   * was changed during it; the flag lasts until that round ends.
   */
  lemma {:induction false} RoundsCountEveryEndButTheFlaggedOne(s: State, events: seq<Event>)
    requires Inv(s) && Undisturbed(events)
    ensures var t := Run(s, events);
      var n := RoundEnds(s, events);
      && t.rounds == s.rounds + n - (if s.difficultyChangedDuringGame && n > 0 then 1 else 0)
      && t.difficultyChangedDuringGame == (s.difficultyChangedDuringGame && n == 0)
    decreases |events|
  {
    if events != [] {
      assert events[0] in events;
      StepCountsRound(s, events[0]);
      assert Undisturbed(events[1..]) by {
        forall e | e in events[1..] ensures e.Click? || e.SystemTimer? || e.Restart? {
          assert e in events;
        }
      }
      RoundsCountEveryEndButTheFlaggedOne(Step(s, events[0]), events[1..]);
    }
  }

  /**
   * A difficulty change in the middle of a round wipes its board; the first
   * round to end after the change is not counted, and every later one is.
   */
  lemma {:induction false} MidRoundDifficultyChangeSkipsOneRound(s: State, value: string, events: seq<Event>)
    requires Inv(s) && s.gameActive && Undisturbed(events)
    ensures var run := [DifficultyChange(value)] + events;
      var n := RoundEnds(s, run);
      Run(s, run).rounds == s.rounds + (if n > 0 then n - 1 else 0)
  {
    var run := [DifficultyChange(value)] + events;
    assert run[0] == DifficultyChange(value) && run[1..] == events;
    var t := Step(s, run[0]);
    ChangeDifficultyOutcome(s, value);
    assert !EndsRound(s, run[0]);
    RoundsCountEveryEndButTheFlaggedOne(t, events);
  }

  /**
   * The click handler does not look at whose turn it is: a second click
   * before the deferred system move fires is accepted and marks "O".
   */
  lemma ClickBeforeSystemMoveMarksO()
    ensures var t := PlayerMove(PlayerMove(Initial(), 0), 1);
      t.board[0] == X && t.board[1] == O && t.gameActive && t.currentPlayer == O
  {
    var s0 := Initial();
    var s1 := PlayerMove(s0, 0);
    assert s1.board == EmptyBoard()[0 := X];
    assert !CheckWinner(s1.board, X);
    assert s1.board[5] == Empty;
    var s2 := PlayerMove(s1, 1);
    assert s2.board == EmptyBoard()[0 := X][1 := O];
    assert !CheckWinner(s2.board, O);
    assert s2.board[5] == Empty;
  }
}
