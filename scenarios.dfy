/** Whole-session properties, stated as runs of the engine. */
module Scenarios {
  import opened Pieces
  import opened Boards
  import opened Lines
  import opened GameState

  /** A fresh game whose rounds keep expiring: the first three expiries take
      the three starting lives, the fourth raises game over, and the timer is
      re-armed every time (once at the start, once per expiry). */
  method FourthExpiryEndsGame(p: Piece)
    returns (livesAfterThree: int, signalsAfterThree: nat,
             livesAfterFour: int, signalsAfterFour: nat, armsAfterFour: nat)
    ensures livesAfterThree == 0 && signalsAfterThree == 0
    ensures livesAfterFour == 0 && signalsAfterFour == 1 && armsAfterFour == 5
  {
    var g := new Game(5, 5);
    g.Start(p, p);
    g.GameLoop(p);
    g.GameLoop(p);
    g.GameLoop(p);
    livesAfterThree, signalsAfterThree := g.lives, g.gameOverSignals;
    g.GameLoop(p);
    livesAfterFour, signalsAfterFour, armsAfterFour := g.lives, g.gameOverSignals, g.arms;
  }

  /** Swapping twice puts both pieces back where they were. */
  method SwapTwiceRestores(g: Game)
    modifies g
    ensures g.currentPiece == old(g.currentPiece) && g.followingPiece == old(g.followingPiece)
  {
    g.SwapCurrentPiece();
    g.SwapCurrentPiece();
  }

  /** Clearing is idempotent: right after a clearing pass on a non-degenerate
      grid no line is full, so a second pass clears nothing and drops the
      multiplier back to 1. */
  method ClearTwice(g: Game) returns (first: nat, second: nat)
    requires g.Valid() && g.cols > 0 && g.rows > 0
    modifies g, g.grid.cells
    ensures second == 0 && g.multiplier == 1
    ensures g.grid.Board() == if first > 0 then ClearLines(old(g.grid.Board())) else old(g.grid.Board())
  {
    ghost var b := g.grid.Board();
    var blocks;
    first, blocks := g.AfterPiece();
    if first > 0 {
      NoFullLineAfterClear(b);
    }
    second, blocks := g.AfterPiece();
  }

  /** Three blocks in a column: pattern column 1 of a 3 x 3 pattern. */
  function Bar(): (p: Piece)
    ensures HasBlock(p)
  {
    assert Piece([[0, 0, 0], [1, 1, 1], [0, 0, 0]]).blocks[1][1] != 0;
    Piece([[0, 0, 0], [1, 1, 1], [0, 0, 0]])
  }

  /** The empty 3 x 3 board. */
  predicate EmptyThreeByThree(b: Board) {
    b.Valid() && b.cols == 3 && b.rows == 3 &&
    forall x, y :: 0 <= x < 3 && 0 <= y < 3 ==> b.cells[x][y] == 0
  }

  /** A 3 x 3 board holding exactly one full column, column 1, clears one line
      of three blocks. */
  lemma {:induction false} MiddleColumnFull(board: Board)
    requires board.Valid() && board.cols == 3 && board.rows == 3
    requires forall x, y :: 0 <= x < 3 && 0 <= y < 3 ==> board.cells[x][y] == if x == 1 then 1 else 0
    ensures LinesCleared(board) == 1 && |ClearedCells(board)| == 3
  {
    assert FullColumn(board, 1);
    assert board.cells[0][0] == 0 && board.cells[2][0] == 0;
    assert !FullColumn(board, 0) && !FullColumn(board, 2);
    assert !FullRow(board, 0) && !FullRow(board, 1) && !FullRow(board, 2);
    FullColumnsBelowStep(board, 0);
    FullColumnsBelowStep(board, 1);
    FullColumnsBelowStep(board, 2);
    FullRowsBelowStep(board, 0);
    FullRowsBelowStep(board, 1);
    FullRowsBelowStep(board, 2);
    assert FullColumns(board) == {1} && FullRows(board) == {};
    OneFullColumn(board, 1);
  }

  /** On the empty 3 x 3 board the bar fits centred on (1, 1) and fills
      column 1. */
  lemma {:induction false} BarFillsMiddleColumn(b: Board)
    requires EmptyThreeByThree(b)
    ensures Fits(b, Bar(), 1, 1)
    ensures forall x, y :: 0 <= x < 3 && 0 <= y < 3 ==>
      Place(b, Bar(), 1, 1).cells[x][y] == if x == 1 then 1 else 0
  {
    var p := Bar();
    forall px, py | 0 <= px < |p.blocks| && 0 <= py < |p.blocks[px]| && p.blocks[px][py] != 0
      ensures b.Get(1 + px - 1, 1 + py - 1) == 0
    {
      assert px == 1;
    }
  }

  /** Clearing the full middle column of a 3 x 3 board leaves it empty. */
  lemma {:induction false} ClearMiddleColumn(board: Board)
    requires board.Valid() && board.cols == 3 && board.rows == 3
    requires forall x, y :: 0 <= x < 3 && 0 <= y < 3 ==> board.cells[x][y] == if x == 1 then 1 else 0
    ensures EmptyThreeByThree(ClearLines(board))
  {
    ClearLinesCells(board);
    assert FullColumn(board, 1);
    forall x, y | 0 <= x < 3 && 0 <= y < 3
      ensures ClearLines(board).cells[x][y] == 0
    {
      if x == 1 {
        ClearedCellsMember(board, (x, y));
      }
    }
  }

  /** On a fresh 3 x 3 game, playing the bar centred on (1, 1) fills column 1:
      one line of three blocks at multiplier 1 scores 30, the multiplier
      becomes 2, the level stays 0 and column 1 is empty again. */
  method FirstColumnClear() returns (placed: bool, score: int, multiplier: int, level: int, empty: bool)
    ensures placed && score == 30 && multiplier == 2 && level == 0 && empty
  {
    var g := new Game(3, 3);
    g.Start(Bar(), Bar());
    ghost var b := g.grid.Board();
    BarFillsMiddleColumn(b);
    ghost var board := Place(b, Bar(), 1, 1);
    MiddleColumnFull(board);
    ClearMiddleColumn(board);
    placed := g.BlockClicked(1, 1, Bar());
    score, multiplier, level := g.score, g.multiplier, g.level;
    ghost var after := g.grid.Board();
    assert EmptyThreeByThree(after);
    empty := g.grid.cells[1, 0] == 0 && g.grid.cells[1, 1] == 0 && g.grid.cells[1, 2] == 0;
  }
}
