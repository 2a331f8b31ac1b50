// The tic-tac-toe board: nine cells in row-major order, the eight winning
// lines, the win check and the filter that lists empty cells.

module Grid {

  /** The content of one cell: "" (empty), the player's "X" or the system's "O". */
  datatype Cell = Empty | X | O

  /** A position on the board, 0..8, row-major. */
  type Index = i: int | 0 <= i < 9

  /** The nine cells of the board (`gameState`). */
  type Board = b: seq<Cell> | |b| == 9 witness [Empty, Empty, Empty, Empty, Empty, Empty, Empty, Empty, Empty]

  /** A winning line: three positions, read as `const [a, b, c]`. */
  datatype Line = Line(a: Index, b: Index, c: Index)

  /** `winningCombinations`: rows, then columns, then the two diagonals. */
  const WinningCombinations: seq<Line> := [
    Line(0, 1, 2), // top row
    Line(3, 4, 5), // middle row
    Line(6, 7, 8), // bottom row
    Line(0, 3, 6), // left column
    Line(1, 4, 7), // middle column
    Line(2, 5, 8), // right column
    Line(0, 4, 8), // diagonal from top-left
    Line(2, 4, 6)  // diagonal from top-right
  ]

  /** All positions in ascending order, the corners and the sides. */
  const AllIndices: seq<Index> := [0, 1, 2, 3, 4, 5, 6, 7, 8]
  const Corners: seq<Index> := [0, 2, 6, 8]
  const Sides: seq<Index> := [1, 3, 5, 7]

  /** `Array(9).fill("")`. */
  function EmptyBoard(): (board: Board)
    ensures forall i: Index :: board[i] == Empty
  {
    seq(9, _ => Empty)
  }

  /** Every cell of line `l` holds `p` (`combination.every(...)`). */
  predicate LineOwned(board: Board, l: Line, p: Cell) {
    board[l.a] == p && board[l.b] == p && board[l.c] == p
  }

  /** `checkWinner`: some winning line is entirely `p` (the current player). */
  predicate CheckWinner(board: Board, p: Cell) {
    exists i | 0 <= i < |WinningCombinations| :: LineOwned(board, WinningCombinations[i], p)
  }

  /** Neither mark owns a complete line. */
  predicate NoLineCompleted(board: Board) {
    !CheckWinner(board, X) && !CheckWinner(board, O)
  }

  // ---------------------------------------------------------------------
  // An independent statement of "three in a row" on the 3 x 3 grid.

  function At(board: Board, row: int, col: int): Cell
    requires 0 <= row < 3 && 0 <= col < 3
  {
    board[3 * row + col]
  }

  predicate RowOwned(board: Board, row: int, p: Cell)
    requires 0 <= row < 3
  {
    forall col | 0 <= col < 3 :: At(board, row, col) == p
  }

  predicate ColumnOwned(board: Board, col: int, p: Cell)
    requires 0 <= col < 3
  {
    forall row | 0 <= row < 3 :: At(board, row, col) == p
  }

  predicate DiagonalOwned(board: Board, p: Cell) {
    At(board, 0, 0) == p && At(board, 1, 1) == p && At(board, 2, 2) == p
  }

  predicate AntiDiagonalOwned(board: Board, p: Cell) {
    At(board, 0, 2) == p && At(board, 1, 1) == p && At(board, 2, 0) == p
  }

  predicate ThreeInARow(board: Board, p: Cell) {
    (exists row | 0 <= row < 3 :: RowOwned(board, row, p)) ||
    (exists col | 0 <= col < 3 :: ColumnOwned(board, col, p)) ||
    DiagonalOwned(board, p) ||
    AntiDiagonalOwned(board, p)
  }

  /** The eight declared lines are exactly the rows, columns and diagonals of the grid. */
  lemma {:induction false} CheckWinnerIsThreeInARow(board: Board, p: Cell)
    ensures CheckWinner(board, p) <==> ThreeInARow(board, p)
  {
    if CheckWinner(board, p) {
      var i :| 0 <= i < |WinningCombinations| && LineOwned(board, WinningCombinations[i], p);
      if i < 3 {
        assert RowOwned(board, i, p);
      } else if i < 6 {
        assert ColumnOwned(board, i - 3, p);
      } else if i == 6 {
        assert DiagonalOwned(board, p);
      } else {
        assert AntiDiagonalOwned(board, p);
      }
    }
    if ThreeInARow(board, p) {
      if exists row | 0 <= row < 3 :: RowOwned(board, row, p) {
        var row :| 0 <= row < 3 && RowOwned(board, row, p);
        assert At(board, row, 0) == p && At(board, row, 1) == p && At(board, row, 2) == p;
        assert LineOwned(board, WinningCombinations[row], p);
      } else if exists col | 0 <= col < 3 :: ColumnOwned(board, col, p) {
        var col :| 0 <= col < 3 && ColumnOwned(board, col, p);
        assert At(board, 0, col) == p && At(board, 1, col) == p && At(board, 2, col) == p;
        assert LineOwned(board, WinningCombinations[3 + col], p);
      } else if DiagonalOwned(board, p) {
        assert LineOwned(board, WinningCombinations[6], p);
      } else {
        assert LineOwned(board, WinningCombinations[7], p);
      }
    }
  }

  /**
   * On a board with no completed line, a mark that does not win for its own
   * mark leaves the board with no completed line.
   */
  lemma {:induction false} MarkingWithoutWinKeepsBoardOpen(board: Board, i: Index, m: Cell)
    requires NoLineCompleted(board) && (m == X || m == O)
    requires !CheckWinner(board[i := m], m)
    ensures NoLineCompleted(board[i := m])
  {
  }

  // ---------------------------------------------------------------------
  // Lists of empty cells.

  predicate Ascending(s: seq<Index>) {
    forall x, y | 0 <= x < y < |s| :: s[x] < s[y]
  }

  /**
   * `candidates.filter((index) => gameState[index] === "")`: the candidates
   * whose cell is empty, in the candidates' order.
   */
  function EmptyAmong(board: Board, candidates: seq<Index>): (r: seq<Index>)
    ensures forall j: Index :: j in r <==> j in candidates && board[j] == Empty
    ensures Ascending(candidates) ==> Ascending(r)
    decreases |candidates|
  {
    if candidates == [] then []
    else
      var rest := EmptyAmong(board, candidates[1..]);
      var head: seq<Index> := if board[candidates[0]] == Empty then [candidates[0]] else [];
      assert Ascending(candidates) ==> Ascending(head + rest) by {
        if Ascending(candidates) {
          assert Ascending(candidates[1..]);
          forall j: Index | j in rest ensures candidates[0] < j {
            var k :| 0 <= k < |candidates[1..]| && candidates[1..][k] == j;
            assert candidates[k + 1] == j;
          }
          forall x, y | 0 <= x < y < |head + rest| ensures (head + rest)[x] < (head + rest)[y] {
            if |head| == 1 && x == 0 {
              assert (head + rest)[y] == rest[y - 1];
              assert rest[y - 1] in rest;
            } else {
              assert (head + rest)[x] == rest[x - |head|];
              assert (head + rest)[y] == rest[y - |head|];
            }
          }
        }
      }
      head + rest
  }

  lemma AllIndicesInOrder()
    ensures forall j: Index :: j in AllIndices
    ensures Ascending(AllIndices)
  {
    assert forall j: Index :: AllIndices[j] == j;
  }

  /** `gameState.map(...).filter(...)`: the empty positions in ascending order. */
  function EmptyCells(board: Board): (r: seq<Index>)
    ensures forall j: Index :: j in r <==> board[j] == Empty
    ensures Ascending(r)
  {
    AllIndicesInOrder();
    EmptyAmong(board, AllIndices)
  }

  /** `gameState.includes("")` holds exactly when the list of empty cells is not empty. */
  lemma EmptyCellsNonEmpty(board: Board)
    ensures Empty in board <==> |EmptyCells(board)| > 0
  {
    if Empty in board {
      var i :| 0 <= i < 9 && board[i] == Empty;
      assert i in EmptyCells(board);
    }
    if |EmptyCells(board)| > 0 {
      assert board[EmptyCells(board)[0]] == Empty;
    }
  }
}
