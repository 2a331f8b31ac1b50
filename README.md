# Tic-tac-toe engine: a verified Dafny model

This project models the engine of a browser tic-tac-toe game in which the player ("X") plays against the computer ("O"). The engine is the page script `main.js`. The model has four modules:

- `Grid` (grid.dfy): the nine-cell board `gameState` and the eight `winningCombinations` (rows, then columns, then diagonals). It holds `checkWinner` and the filters that list the empty cells.
- `Strategy` (strategy.dfy): the move strategies as pure functions over the board.
  - `easyModeAI` picks a random empty cell.
  - `mediumModeAI` tosses a coin between easy and hard.
  - `hardModeAI` goes down a decision list: win now, block, centre, corner, side, fallback.
  - `findBestMove` dispatches on `difficulty`. Any value other than "easy" or "medium" means hard.
- `Rules` (rules.dfy): the round/turn state machine on values. It has one function per handler of the script and the invariant every handler keeps. Lemmas state what each handler does to the board, the scores, the round count and the difficulty-changed flag. Runs of events are covered too.
- `Game` (game.dfy): the script's module-level variables as the fields of one `Controller` object. `gameState` is an `array<Cell>` filled in place. Each handler is a method that updates the fields step by step, and each method is proved to produce exactly the state its `Rules` counterpart gives.

Randomness is an argument. `coin: bool` stands for `Math.random() < 0.5`. `pick: nat` selects list position `pick % n`, which stands for `Math.floor(Math.random() * n)`; both range over exactly the positions `0..n-1`. The deferred system move (`setTimeout(handleSystemMove, 500)`) is a separate method, `HandleSystemMove`, that the environment may call at any time, possibly after other events. `HandlePlayerMove` returns whether the move was scheduled.

The script does not enforce some things a turn-based game might be expected to, and the model follows the script:

- The click handler does not check whose turn it is. A click while the system's move is pending is accepted, and it places the current mark, "O" (`Rules.ClickBeforeSystemMoveMarksO`).
- A reset while the system's move is pending leaves the callback to run with `currentPlayer == "X"`, so the system then places "X". The hard strategy always reasons with "O" as its own mark and "X" as the opponent's.
- Restart does not clear the difficulty-changed flag. Only a round end clears it.
- The two draw messages differ: the player-move draw message ends with a period and the system-move one does not.

## Model

| member | source | states |
|---|---|---|
| `Grid.CheckWinner` | main.js:154-158 | `checkWinner` over `Grid.WinningCombinations` (main.js:19-28, the eight lines in the script's order); no contract of its own, specified by `Grid.CheckWinnerIsThreeInARow` and `Grid.MarkingWithoutWinKeepsBoardOpen` |
| `Grid.EmptyBoard` | main.js:12 | the initial board has every one of the nine cells empty |
| `Grid.CheckWinnerIsThreeInARow` | main.js:154-158 | `checkWinner` over the eight declared lines holds iff the mark fills a row, a column or one of the two diagonals of the 3x3 grid (both directions) |
| `Grid.MarkingWithoutWinKeepsBoardOpen` | main.js:53-67 | on a board with no completed line, a mark that does not win for its own mark leaves no completed line for either mark |
| `Grid.EmptyAmong` | main.js:143 | the corner/side filter keeps exactly the candidates whose cell is empty, and keeps ascending order |
| `Grid.EmptyCells` | main.js:110 | the list of available cells contains exactly the empty positions, in ascending order |
| `Grid.EmptyCellsNonEmpty` | main.js:59 | the board contains "" iff the list of available cells is not empty |
| `Strategy.Choose` | main.js:111 | the random selection from a non-empty list returns an entry of that list |
| `Strategy.ChooseReachesEveryEntry` | main.js:111 | every entry of the list is returned for some random draw |
| `Strategy.EasyModeAI` | main.js:108-112 | on a board with an empty cell, the easy move is an entry of the available cells, so its cell is empty |
| `Strategy.EasyReachesEveryEmptyCell` | main.js:108-112 | every empty cell is the easy move for some draw |
| `Strategy.Completes` | main.js:126-128 | the three tests of one line for a mark; no contract of its own, specified by `Strategy.CompletesIsTheMissingCell` |
| `Strategy.CompletesIsTheMissingCell` | main.js:126-128 | one line's three tests for a mark return cell x iff two cells of the line hold the mark, one is empty, and x is that empty cell |
| `Strategy.FindCompletion` | main.js:124-129 | the scan over the lines returns an empty cell; it returns nothing iff no remaining line can be completed, otherwise the completion of the first such line in declaration order |
| `Strategy.FindCompletionTakesFirstLine` | main.js:124-129 | when line j is the first completable line, the scan returns its empty cell |
| `Strategy.HardModeAI` | main.js:121-152 | on a board with an empty cell, the hard move is an empty cell |
| `Strategy.HardWinsNow` | main.js:124-129 | rule 1: if a line holds two "O" and an empty cell, the hard move is that empty cell of the first such line, for every draw |
| `Strategy.HardBlocks` | main.js:132-137 | rule 2: with no "O" line to complete, the hard move is the empty cell of the first line holding two "X" and an empty cell |
| `Strategy.HardTakesCentre` | main.js:140 | rule 3: with nothing to win or block and the centre empty, the hard move is 4 |
| `Strategy.HardTakesCorner` | main.js:143-144 | rule 4: with nothing to win or block and the centre taken, the hard move is always a corner, and every empty corner is chosen for some draw |
| `Strategy.HardTakesSide` | main.js:147-148 | rule 5: with nothing to win or block and centre and corners taken, the hard move is always a side, and every empty side is chosen for some draw |
| `Strategy.HardFallbackUnreachable` | main.js:150-151 | on a board with an empty cell, the centre, some corner or some side is empty, so the easy fallback is never reached |
| `Strategy.MediumModeAI` | main.js:114-119 | the medium move, easy or hard as the coin says, is an empty cell |
| `Strategy.FindBestMove` | main.js:98-106 | the move for any difficulty is an empty cell |
| `Strategy.UnknownDifficultyIsHard` | main.js:103-105 | every difficulty other than "easy" and "medium" selects the hard strategy |
| `Strategy.HardWinScenario` | main.js:126 | on ["O","O","","X","X","","","",""] the hard move is 2 |
| `Strategy.HardBlockScenario` | main.js:134 | on ["X","X","","O","","","","",""] the hard move is 2 |
| `Strategy.HardCentreScenario` | main.js:140 | on ["X","","","","","","","",""] the hard move is 4 |
| `Rules.Initial` | main.js:10-17 | the script's initial values; no contract of its own, specified by `Rules.InitialInv` and `Game.Controller.constructor` |
| `Rules.Inv` | main.js:10-17 | the invariant: the mark to move is "X" or "O", and while the round is active the board has an empty cell and no completed line; established by `Rules.InitialInv` and `Rules.ResetBoardEstablishesInv`, kept by `Rules.PlayerMoveKeepsInv`, `Rules.SystemMoveKeepsInv` and `Rules.Step` |
| `Rules.UpdateRounds` | main.js:174-182 | `updateRounds`; no contract of its own, specified by `Rules.StepCountsRound` and the round clauses of `Rules.PlayerMoveOutcome` and `Rules.SystemMoveOutcome` |
| `Rules.UpdateScore` | main.js:160-172 | `updateScore`; no contract of its own, specified by the score clauses of `Rules.PlayerMoveOutcome` and `Rules.SystemMoveOutcome` |
| `Rules.ResetBoard` | main.js:203-209 | `resetBoard`; no contract of its own, specified by `Rules.ResetBoardOutcome` and `Rules.ResetBoardEstablishesInv` |
| `Rules.ChangeDifficulty` | main.js:32-39 | the difficulty listener; no contract of its own, specified by `Rules.ChangeDifficultyOutcome` |
| `Rules.ClearScores` | main.js:188-196 | the clear-scores listener; no contract of its own, specified by `Rules.ClearScoresOutcome` |
| `Rules.PlayerMove` | main.js:46-69 | `handlePlayerMove`; no contract of its own, specified by `Rules.PlayerMoveOutcome`, `Rules.IgnoredClickIsNoOp`, `Rules.PlayerMoveIdempotent` and `Rules.PlayerMoveKeepsInv` |
| `Rules.SystemMove` | main.js:71-96 | `handleSystemMove` with the strategy's draws as arguments; no contract of its own, specified by `Rules.SystemMoveOutcome`, `Rules.SystemMoveAfterRoundIsNoOp` and `Rules.SystemMoveKeepsInv` |
| `Rules.SystemMoveAt` | main.js:77-95 | the rest of `handleSystemMove` once the cell is chosen; no contract of its own, specified by `Rules.SystemMoveAtKeepsInv` and, through `Rules.SystemMove`, by `Rules.SystemMoveOutcome` |
| `Rules.InitialInv` | main.js:10-17 | the initial state satisfies the invariant: while the round is active the board has an empty cell and no completed line |
| `Rules.ResetBoardEstablishesInv` | main.js:203-209 | after a reset the invariant holds |
| `Rules.PlayerMoveKeepsInv` | main.js:46-69 | the player handler keeps the invariant |
| `Rules.SystemMoveAtKeepsInv` | main.js:77-95 | marking an empty cell for the system and finishing the move keeps the invariant |
| `Rules.SystemMoveKeepsInv` | main.js:71-96 | the system handler keeps the invariant |
| `Rules.IgnoredClickIsNoOp` | main.js:47 | a click after the round ended, off the board or on an occupied cell changes nothing |
| `Rules.PlayerMoveIdempotent` | main.js:47-50 | clicking the same cell twice gives the same state as clicking it once |
| `Rules.PlayerMoveOutcome` | main.js:46-69 | an accepted click marks that cell only; the round ends iff the mark wins or fills the board; a win adds exactly 1 to `playerScore`; a draw scores nothing; a round end counts the round iff the flag was clear, clears it and leaves the mark to move unchanged; otherwise "O" is to move |
| `Rules.SystemMoveOutcome` | main.js:71-96 | the system marks exactly one cell that was empty; the round ends iff the mark wins or fills the board; a win adds exactly 1 to `systemScore`; round counting and the mark to move at a round end as for the player; otherwise "X" is to move |
| `Rules.SystemMoveAfterRoundIsNoOp` | main.js:72 | the deferred system move changes nothing once the round is over |
| `Rules.ResetBoardOutcome` | main.js:203-209 | reset empties all cells, puts "X" to move, activates the round and clears the response; scores, rounds, flag and difficulty are unchanged |
| `Rules.ChangeDifficultyOutcome` | main.js:32-39 | a change during a round sets the flag and resets the board without counting a round; after the round it changes only the difficulty |
| `Rules.ClearScoresOutcome` | main.js:188-196 | clear-scores sets both scores and the round count to 0, then resets the board |
| `Rules.Step` | main.js:31-44 | every event handler keeps the invariant |
| `Rules.Run` | main.js:160-182 | after any run of events the invariant holds, and without clear-scores no score and no round count decreases |
| `Rules.StepKeepsCounters` | main.js:160-182 | no event other than clear-scores lowers a score or the round count |
| `Rules.StepCountsRound` | main.js:174-182 | a move or restart raises the round count by 1 exactly when it ends an unflagged round, and clears the flag exactly when it ends a round |
| `Rules.RoundsCountEveryEndButTheFlaggedOne` | main.js:174-182 | over a run with no difficulty change or clearing, the round count rises by the number of round ends, less one if the flag was set and a round ended |
| `Rules.MidRoundDifficultyChangeSkipsOneRound` | main.js:32-39 | after a difficulty change during a round, whose board it wipes, the first round to end after the change is not counted, and every later one is |
| `Rules.ClickBeforeSystemMoveMarksO` | main.js:46-67 | two clicks from the start, before the system moves, leave "X" in cell 0 and "O" in cell 1, with the round active |
| `Game.Controller.constructor` | main.js:10-17 | the object starts with the script's initial values and satisfies its invariant |
| `Game.Controller.DisplayResponse` | main.js:198-200 | only the response text changes |
| `Game.Controller.UpdateRounds` | main.js:174-182 | the new state is `updateRounds` applied to the old one |
| `Game.Controller.UpdateScore` | main.js:160-172 | the new state is `updateScore` applied to the old one |
| `Game.Controller.ResetBoard` | main.js:203-209 | the array is emptied in place and the new state is `resetBoard` of the old one; the invariant holds |
| `Game.Controller.ChangeDifficulty` | main.js:32-39 | the new state is the difficulty listener applied to the old one; the invariant is kept |
| `Game.Controller.ClearScores` | main.js:188-196 | the new state is the clear-scores listener applied to the old one; the invariant is kept |
| `Game.Controller.HandlePlayerMove` | main.js:46-69 | the new state is the player handler applied to the old one; the invariant is kept; the system move is scheduled iff the click was accepted and the round goes on |
| `Game.Controller.HandleSystemMove` | main.js:71-96 | the new state is the system handler applied to the old one with the given draws; the invariant is kept |
| `Game.Controller.PlaceSystemMark` | main.js:77-95 | once the strategy has chosen an empty cell, the new state is the rest of the system handler applied to the old one |

## Left out

- The DOM is not modelled: element lookup, listener registration and the `textContent` writes of cells, scores and rounds. They only display the modelled state. The response text is kept as the `response` field.
- The 500 ms timer is not modelled. The deferred system move is a method the environment may call at any time, or never.
- The probabilities of `Math.random` are not modelled, and neither is the uniformity of the choices. Each draw is an argument, and every outcome is shown reachable.
- Strategy.EasyModeAI, Strategy.HardModeAI, Strategy.MediumModeAI and Strategy.FindBestMove require a board with an empty cell. On a full board the script's easy strategy returns `undefined`. No handler calls a strategy in that state, because the invariant keeps an empty cell while the round is active.
- Game.Controller.HandleSystemMove requires the object invariant `Valid()`. That is stronger than the one condition the script needs, "an active round has an empty cell". The constructor establishes the invariant and every method keeps it, so every sequence of calls meets it. `Rules.SystemMove` itself requires only that condition.
- `updateScore` receives "player" or "system" as a string. It is modelled with a two-value `Winner` datatype. The script's silent case for any other string is never used.
- Scores and the round count are unbounded naturals. The script's counters are JavaScript numbers, which stay exact far beyond any reachable count.
- The response area's initial text comes from the page markup, which is not part of this model. The model starts it as "".
