// The system's move strategies: easy (random empty cell), medium (a coin
// between easy and hard), hard (an ordered decision list) and the dispatcher
// on the difficulty setting. Every `Math.random()` draw is a parameter:
// `coin` stands for `Math.random() < 0.5`, and `pick % n` stands for
// `Math.floor(Math.random() * n)`, which ranges over exactly 0..n-1.

module Strategy {
  import opened Grid

  datatype Option<T> = None | Some(value: T)

  /**
   * `list[Math.floor(Math.random() * list.length)]`: the entry of a non-empty
   * list at the position the random draw selects.
   */
  function Choose(list: seq<Index>, pick: nat): (r: Index)
    requires |list| > 0
    ensures r in list
  {
    list[pick % |list|]
  }

  /** Every entry of the list is selected by some draw. */
  lemma ChooseReachesEveryEntry(list: seq<Index>, x: Index)
    requires x in list
    ensures exists pick: nat :: Choose(list, pick) == x
  {
    var k :| 0 <= k < |list| && list[k] == x;
    assert k % |list| == k;
    assert Choose(list, k) == x;
  }

  /** `easyModeAI`: an entry of the ascending list of empty cells. */
  function EasyModeAI(board: Board, pick: nat): (r: Index)
    requires Empty in board
    ensures r in EmptyCells(board) && board[r] == Empty
  {
    EmptyCellsNonEmpty(board);
    Choose(EmptyCells(board), pick)
  }

  /** Every empty cell is the easy move for some draw of the random number. */
  lemma EasyReachesEveryEmptyCell(board: Board, i: Index)
    requires board[i] == Empty
    ensures exists pick: nat :: EasyModeAI(board, pick) == i
  {
    ChooseReachesEveryEntry(EmptyCells(board), i);
    var pick: nat :| Choose(EmptyCells(board), pick) == i;
    assert EasyModeAI(board, pick) == i;
  }

  // ---------------------------------------------------------------------
  // Rules 1 and 2 of the hard strategy: complete a line of two marks.

  /**
   * The three tests of one loop iteration of `hardModeAI` for mark `m`:
   * the empty cell of line `l` when the other two hold `m`.
   */
  function Completes(board: Board, m: Cell, l: Line): Option<Index> {
    if board[l.a] == m && board[l.b] == m && board[l.c] == Empty then Some(l.c)
    else if board[l.a] == m && board[l.b] == Empty && board[l.c] == m then Some(l.b)
    else if board[l.a] == Empty && board[l.b] == m && board[l.c] == m then Some(l.a)
    else None
  }

  /** How many of the three cells of `l` hold `v`. */
  function Count(board: Board, l: Line, v: Cell): nat {
    (if board[l.a] == v then 1 else 0) +
    (if board[l.b] == v then 1 else 0) +
    (if board[l.c] == v then 1 else 0)
  }

  /**
   * For a mark `m`, a line is completable exactly when two of its cells hold
   * `m` and the third is empty, and the answer is that empty cell.
   */
  lemma CompletesIsTheMissingCell(board: Board, m: Cell, l: Line, x: Index)
    requires m != Empty
    ensures Completes(board, m, l) == Some(x) <==>
      Count(board, l, m) == 2 && Count(board, l, Empty) == 1 &&
      (x == l.a || x == l.b || x == l.c) && board[x] == Empty
  {
  }

  /** No winning line can be completed for `m`. */
  predicate NoThreat(board: Board, m: Cell) {
    forall j | 0 <= j < |WinningCombinations| :: Completes(board, m, WinningCombinations[j]).None?
  }

  /**
   * The `for` loop over `winningCombinations` from line `from` on, with its
   * early return: the completion offered by the first line that has one.
   */
  function FindCompletion(board: Board, m: Cell, from: nat): (r: Option<Index>)
    requires from <= |WinningCombinations|
    ensures r.Some? ==> board[r.value] == Empty
    ensures r.None? <==>
      forall j | from <= j < |WinningCombinations| :: Completes(board, m, WinningCombinations[j]).None?
    ensures r.Some? ==>
      exists j | from <= j < |WinningCombinations| ::
        r == Completes(board, m, WinningCombinations[j]) &&
        forall k | from <= k < j :: Completes(board, m, WinningCombinations[k]).None?
    decreases |WinningCombinations| - from
  {
    if from == |WinningCombinations| then None
    else
      var here := Completes(board, m, WinningCombinations[from]);
      if here.Some? then here
      else
        var r := FindCompletion(board, m, from + 1);
        assert r.Some? ==> exists j | from <= j < |WinningCombinations| ::
          r == Completes(board, m, WinningCombinations[j]) &&
          forall k | from <= k < j :: Completes(board, m, WinningCombinations[k]).None? by {
          if r.Some? {
            var j :| from + 1 <= j < |WinningCombinations| &&
              r == Completes(board, m, WinningCombinations[j]) &&
              forall k | from + 1 <= k < j :: Completes(board, m, WinningCombinations[k]).None?;
            assert forall k | from <= k < j :: Completes(board, m, WinningCombinations[k]).None?;
          }
        }
        r
  }

  /** The first line, in declaration order, that can be completed for `m`. */
  lemma FindCompletionTakesFirstLine(board: Board, m: Cell, j: nat)
    requires j < |WinningCombinations| && Completes(board, m, WinningCombinations[j]).Some?
    requires forall k | 0 <= k < j :: Completes(board, m, WinningCombinations[k]).None?
    ensures FindCompletion(board, m, 0) == Completes(board, m, WinningCombinations[j])
  {
    var r := FindCompletion(board, m, 0);
    assert r.Some?;
    var j' :| 0 <= j' < |WinningCombinations| && r == Completes(board, m, WinningCombinations[j']) &&
      forall k | 0 <= k < j' :: Completes(board, m, WinningCombinations[k]).None?;
    assert j' == j;
  }

  // ---------------------------------------------------------------------
  // The hard strategy.

  /**
   * `hardModeAI`: win now as "O", else block "X", else the centre, else a
   * random empty corner, else a random empty side, else an easy move.
   */
  function HardModeAI(board: Board, pick: nat): (r: Index)
    requires Empty in board
    ensures board[r] == Empty
  {
    match FindCompletion(board, O, 0)
    case Some(c) => c
    case None =>
      match FindCompletion(board, X, 0)
      case Some(c) => c
      case None =>
        if board[4] == Empty then 4
        else
          var corners := EmptyAmong(board, Corners);
          if |corners| > 0 then Choose(corners, pick)
          else
            var sides := EmptyAmong(board, Sides);
            if |sides| > 0 then Choose(sides, pick)
            else EasyModeAI(board, pick)
  }

  /** Rule 1: the empty cell of the first line holding two "O". */
  lemma HardWinsNow(board: Board, pick: nat, j: nat)
    requires Empty in board
    requires j < |WinningCombinations| && Completes(board, O, WinningCombinations[j]).Some?
    requires forall k | 0 <= k < j :: Completes(board, O, WinningCombinations[k]).None?
    ensures HardModeAI(board, pick) == Completes(board, O, WinningCombinations[j]).value
  {
    FindCompletionTakesFirstLine(board, O, j);
  }

  /** Rule 2: with no win available, the empty cell of the first line holding two "X". */
  lemma HardBlocks(board: Board, pick: nat, j: nat)
    requires Empty in board && NoThreat(board, O)
    requires j < |WinningCombinations| && Completes(board, X, WinningCombinations[j]).Some?
    requires forall k | 0 <= k < j :: Completes(board, X, WinningCombinations[k]).None?
    ensures HardModeAI(board, pick) == Completes(board, X, WinningCombinations[j]).value
  {
    FindCompletionTakesFirstLine(board, X, j);
  }

  /** Rule 3: with nothing to win or block, the centre when it is empty. */
  lemma HardTakesCentre(board: Board, pick: nat)
    requires NoThreat(board, O) && NoThreat(board, X) && board[4] == Empty
    ensures HardModeAI(board, pick) == 4
  {
    assert FindCompletion(board, O, 0).None? && FindCompletion(board, X, 0).None?;
  }

  /**
   * Rule 4: with nothing to win or block and the centre taken, an empty
   * corner; every empty corner is chosen for some draw.
   */
  lemma HardTakesCorner(board: Board, corner: Index)
    requires NoThreat(board, O) && NoThreat(board, X) && board[4] != Empty
    requires corner in Corners && board[corner] == Empty
    ensures forall pick: nat :: HardModeAI(board, pick) in Corners
    ensures exists pick: nat :: HardModeAI(board, pick) == corner
  {
    assert FindCompletion(board, O, 0).None? && FindCompletion(board, X, 0).None?;
    var corners := EmptyAmong(board, Corners);
    assert corner in corners;
    ChooseReachesEveryEntry(corners, corner);
    var pick: nat :| Choose(corners, pick) == corner;
    assert HardModeAI(board, pick) == corner;
  }

  /**
   * Rule 5: with nothing to win or block and centre and corners taken, an
   * empty side; every empty side is chosen for some draw.
   */
  lemma HardTakesSide(board: Board, side: Index)
    requires NoThreat(board, O) && NoThreat(board, X) && board[4] != Empty
    requires forall c | c in Corners :: board[c] != Empty
    requires side in Sides && board[side] == Empty
    ensures forall pick: nat :: HardModeAI(board, pick) in Sides
    ensures exists pick: nat :: HardModeAI(board, pick) == side
  {
    assert FindCompletion(board, O, 0).None? && FindCompletion(board, X, 0).None?;
    assert |EmptyAmong(board, Corners)| == 0 by {
      if |EmptyAmong(board, Corners)| > 0 {
        assert EmptyAmong(board, Corners)[0] in EmptyAmong(board, Corners);
      }
    }
    var sides := EmptyAmong(board, Sides);
    assert side in sides;
    ChooseReachesEveryEntry(sides, side);
    var pick: nat :| Choose(sides, pick) == side;
    assert HardModeAI(board, pick) == side;
  }

  /**
   * Rule 6 (the easy fallback) is never reached: the centre, the corners and
   * the sides together cover the board, so one of rules 3-5 applies.
   */
  lemma HardFallbackUnreachable(board: Board)
    requires Empty in board
    ensures board[4] == Empty || |EmptyAmong(board, Corners)| > 0 || |EmptyAmong(board, Sides)| > 0
  {
    var i :| 0 <= i < 9 && board[i] == Empty;
    if i != 4 {
      if i == 0 || i == 2 || i == 6 || i == 8 {
        assert i in Corners;
        assert i in EmptyAmong(board, Corners);
      } else {
        assert i in Sides;
        assert i in EmptyAmong(board, Sides);
      }
    }
  }

  // ---------------------------------------------------------------------
  // Medium and the dispatcher.

  /** `mediumModeAI`: the easy move when the coin says so, the hard move otherwise. */
  function MediumModeAI(board: Board, coin: bool, pick: nat): (r: Index)
    requires Empty in board
    ensures board[r] == Empty
  {
    if coin then EasyModeAI(board, pick) else HardModeAI(board, pick)
  }

  /** `findBestMove`: "easy", "medium", and every other value means hard. */
  function FindBestMove(difficulty: string, board: Board, coin: bool, pick: nat): (r: Index)
    requires Empty in board
    ensures board[r] == Empty
  {
    if difficulty == "easy" then EasyModeAI(board, pick)
    else if difficulty == "medium" then MediumModeAI(board, coin, pick)
    else HardModeAI(board, pick)
  }

  /** Any difficulty value other than "easy" and "medium" selects the hard strategy. */
  lemma UnknownDifficultyIsHard(difficulty: string, board: Board, coin: bool, pick: nat)
    requires Empty in board && difficulty != "easy" && difficulty != "medium"
    ensures FindBestMove(difficulty, board, coin, pick) == HardModeAI(board, pick)
  {
  }

  // ---------------------------------------------------------------------
  // Worked boards.

  /** ["O","O","","X","X","","","",""]: the system wins on the top row. */
  lemma HardWinScenario(pick: nat)
    ensures HardModeAI([O, O, Empty, X, X, Empty, Empty, Empty, Empty], pick) == 2
  {
    HardWinsNow([O, O, Empty, X, X, Empty, Empty, Empty, Empty], pick, 0);
  }

  /** ["X","X","","O","","","","",""]: the system blocks the top row. */
  lemma HardBlockScenario(pick: nat)
    ensures HardModeAI([X, X, Empty, O, Empty, Empty, Empty, Empty, Empty], pick) == 2
  {
    var board: Board := [X, X, Empty, O, Empty, Empty, Empty, Empty, Empty];
    assert NoThreat(board, O) by {
      forall j | 0 <= j < |WinningCombinations|
        ensures Completes(board, O, WinningCombinations[j]).None?
      {
        if j < 4 {} else {}
      }
    }
    HardBlocks(board, pick, 0);
  }

  /** ["X","","","","","","","",""]: nothing to win or block, so the centre. */
  lemma HardCentreScenario(pick: nat)
    ensures HardModeAI([X, Empty, Empty, Empty, Empty, Empty, Empty, Empty, Empty], pick) == 4
  {
    var board: Board := [X, Empty, Empty, Empty, Empty, Empty, Empty, Empty, Empty];
    assert NoThreat(board, O) && NoThreat(board, X) by {
      forall j | 0 <= j < |WinningCombinations|
        ensures Completes(board, O, WinningCombinations[j]).None?
        ensures Completes(board, X, WinningCombinations[j]).None?
      {
        if j < 4 {} else {}
      }
    }
    HardTakesCentre(board, pick);
  }
}
