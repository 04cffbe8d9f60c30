/** Value-level view of the game grid and of piece placement. A `Board` is a
    snapshot of the grid's cells; the imperative `Grid` class is specified
    against these functions. */
module Boards {
  import opened Pieces

  /** A snapshot of a `cols` x `rows` grid: `cells[x][y]` is column x, row y.
      0 is an empty cell, a positive value a colour index. */
  datatype Board = Board(cols: nat, rows: nat, cells: seq<seq<int>>) {

    predicate Valid() {
      |cells| == cols && forall x :: 0 <= x < cols ==> |cells[x]| == rows
    }

    predicate InBounds(x: int, y: int) {
      0 <= x < cols && 0 <= y < rows
    }

    /** The stored value, or the sentinel -1 for a coordinate off the grid. */
    function Get(x: int, y: int): int
      requires Valid()
    {
      if InBounds(x, y) then cells[x][y] else -1
    }

    /** The board with cell (x, y) replaced by v. */
    function Set(x: int, y: int, v: int): (r: Board)
      requires Valid() && InBounds(x, y)
      ensures r.Valid() && r.cols == cols && r.rows == rows
    {
      Board(cols, rows, cells[x := cells[x][y := v]])
    }
  }

  /** Two well-formed boards of the same size that agree on every cell are equal. */
  lemma {:induction false} Extensionality(a: Board, b: Board)
    requires a.Valid() && b.Valid() && a.cols == b.cols && a.rows == b.rows
    requires forall x, y :: 0 <= x < a.cols && 0 <= y < a.rows ==> a.cells[x][y] == b.cells[x][y]
    ensures a == b
  {
    forall x | 0 <= x < a.cols
      ensures a.cells[x] == b.cells[x]
    {
      assert forall y :: 0 <= y < a.rows ==> a.cells[x][y] == b.cells[x][y];
    }
  }

  /** Reading back a written cell gives the written value; every other
      coordinate, on or off the grid, reads as before. */
  lemma GetAfterSet(b: Board, x: int, y: int, v: int, x': int, y': int)
    requires b.Valid() && b.InBounds(x, y)
    ensures b.Set(x, y, v).Get(x', y') == if x' == x && y' == y then v else b.Get(x', y')
  {
  }

  /** Whether piece `p` may be played with its centre cell at (ax, ay): pattern
      cell (px, py) lands on grid cell (ax + px - 1, ay + py - 1), and every
      non-empty pattern cell must land on a cell that reads 0. An off-grid
      cell reads -1, so it never accepts a block. */
  predicate Fits(b: Board, p: Piece, ax: int, ay: int)
    requires b.Valid()
  {
    forall px, py :: 0 <= px < |p.blocks| && 0 <= py < |p.blocks[px]| && p.blocks[px][py] != 0 ==>
      b.Get(ax + px - 1, ay + py - 1) == 0
  }

  /** `Fits` means exactly: every non-empty pattern cell lands on the grid, on
      an empty cell; empty pattern cells may hang off the grid. */
  lemma FitsIffOnGridAndEmpty(b: Board, p: Piece, ax: int, ay: int)
    requires b.Valid()
    ensures Fits(b, p, ax, ay) <==>
      forall px, py :: 0 <= px < |p.blocks| && 0 <= py < |p.blocks[px]| && p.blocks[px][py] != 0 ==>
        b.InBounds(ax + px - 1, ay + py - 1) && b.cells[ax + px - 1][ay + py - 1] == 0
  {
  }

  /** The pattern value that lands on grid cell (x, y) when `p` is anchored at
      (ax, ay); 0 where no pattern cell lands. */
  function Cover(p: Piece, ax: int, ay: int, x: int, y: int): int {
    var px, py := x - ax + 1, y - ay + 1;
    if 0 <= px < |p.blocks| && 0 <= py < |p.blocks[px]| then p.blocks[px][py] else 0
  }

  /** The board after writing every non-empty pattern cell of `p`, anchored at
      (ax, ay), into the cell it lands on. */
  function Place(b: Board, p: Piece, ax: int, ay: int): (r: Board)
    requires b.Valid()
    ensures r.Valid() && r.cols == b.cols && r.rows == b.rows
  {
    Board(b.cols, b.rows,
      seq(b.cols, x requires 0 <= x < b.cols =>
        seq(b.rows, y requires 0 <= y < b.rows =>
          if Cover(p, ax, ay, x, y) != 0 then Cover(p, ax, ay, x, y) else b.cells[x][y])))
  }

  /** A placement that fits writes each non-empty pattern value into the cell
      it lands on, and leaves every cell no non-empty pattern cell lands on as
      it was. */
  lemma {:induction false} PlaceWritesPattern(b: Board, p: Piece, ax: int, ay: int)
    requires b.Valid() && Fits(b, p, ax, ay)
    ensures forall px, py :: 0 <= px < |p.blocks| && 0 <= py < |p.blocks[px]| && p.blocks[px][py] != 0 ==>
      b.InBounds(ax + px - 1, ay + py - 1) &&
      Place(b, p, ax, ay).cells[ax + px - 1][ay + py - 1] == p.blocks[px][py]
    ensures forall x, y :: b.InBounds(x, y) && Cover(p, ax, ay, x, y) == 0 ==>
      Place(b, p, ax, ay).cells[x][y] == b.cells[x][y]
  {
    var r := Place(b, p, ax, ay);
    forall px, py | 0 <= px < |p.blocks| && 0 <= py < |p.blocks[px]| && p.blocks[px][py] != 0
      ensures b.InBounds(ax + px - 1, ay + py - 1) && r.cells[ax + px - 1][ay + py - 1] == p.blocks[px][py]
    {
      assert b.Get(ax + px - 1, ay + py - 1) == 0;
      assert Cover(p, ax, ay, ax + px - 1, ay + py - 1) == p.blocks[px][py];
    }
  }

  /** Once a piece with a block has been played, the same piece at the same
      anchor no longer fits. */
  lemma {:induction false} PlacedPieceNoLongerFits(b: Board, p: Piece, ax: int, ay: int)
    requires b.Valid() && Fits(b, p, ax, ay) && HasBlock(p)
    ensures !Fits(Place(b, p, ax, ay), p, ax, ay)
  {
    var px, py :| 0 <= px < |p.blocks| && 0 <= py < |p.blocks[px]| && p.blocks[px][py] != 0;
    PlaceWritesPattern(b, p, ax, ay);
    assert Place(b, p, ax, ay).Get(ax + px - 1, ay + py - 1) != 0;
  }
}
