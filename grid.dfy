/** The game grid: a fixed `cols` x `rows` array of cell values that the
    engine updates in place. */
module GridState {
  import opened Pieces
  import opened Boards

  class Grid {
    /** The dimensions are fixed at construction. */
    const cols: nat
    const rows: nat
    /** `cells[x, y]` is the value in column x, row y. */
    const cells: array2<int>

    ghost predicate Valid() {
      cells.Length0 == cols && cells.Length1 == rows
    }

    /** The current contents as a value. */
    ghost function Board(): (b: Boards.Board)
      requires Valid()
      reads cells
      ensures b.Valid() && b.cols == cols && b.rows == rows
      ensures forall x, y :: 0 <= x < cols && 0 <= y < rows ==> b.cells[x][y] == cells[x, y]
    {
      Boards.Board(cols, rows,
        seq(cols, x requires 0 <= x < cols reads cells =>
          seq(rows, y requires 0 <= y < rows reads cells => cells[x, y])))
    }

    /** A new grid of the given size with every cell empty. */
    constructor (cols: nat, rows: nat)
      ensures Valid() && fresh(cells)
      ensures this.cols == cols && this.rows == rows
      ensures forall x, y :: 0 <= x < cols && 0 <= y < rows ==> cells[x, y] == 0
    {
      this.cols := cols;
      this.rows := rows;
      var a := new int[cols, rows];
      var y := 0;
      while y < rows
        invariant 0 <= y <= rows
        invariant forall i, j :: 0 <= i < cols && 0 <= j < y ==> a[i, j] == 0
      {
        var x := 0;
        while x < cols
          invariant 0 <= x <= cols
          invariant forall i, j :: 0 <= i < cols && 0 <= j < y ==> a[i, j] == 0
          invariant forall i :: 0 <= i < x ==> a[i, y] == 0
        {
          a[x, y] := 0;
          x := x + 1;
        }
        y := y + 1;
      }
      this.cells := a;
    }

    /** The value at (x, y), or the sentinel -1 off the grid (the source
        catches the array-index exception, so negative coordinates read -1
        as well). */
    method Get(x: int, y: int) returns (v: int)
      requires Valid()
      ensures 0 <= x < cols && 0 <= y < rows ==> v == cells[x, y]
      ensures !(0 <= x < cols && 0 <= y < rows) ==> v == -1
      ensures v == Board().Get(x, y)
    {
      if 0 <= x < cols && 0 <= y < rows {
        v := cells[x, y];
      } else {
        v := -1;
      }
    }

    /** Writes v into cell (x, y); no other cell changes. The source indexes
        the array directly, so its callers only ever pass on-grid
        coordinates. */
    method Set(x: int, y: int, v: int)
      requires Valid() && 0 <= x < cols && 0 <= y < rows
      modifies cells
      ensures Board() == old(Board()).Set(x, y, v)
      ensures forall i, j :: 0 <= i < cols && 0 <= j < rows ==>
        cells[i, j] == if i == x && j == y then v else old(cells[i, j])
    {
      cells[x, y] := v;
      Extensionality(Board(), old(Board()).Set(x, y, v));
    }

    /** Whether `p` fits with its centre at (ax, ay). The scan stops at the
        first non-empty pattern cell that lands on a non-zero (or off-grid)
        cell. */
    method CanPlayPiece(p: Piece, ax: int, ay: int) returns (ok: bool)
      requires Valid()
      ensures ok == Fits(Board(), p, ax, ay)
    {
      ghost var b := Board();
      var px := 0;
      while px < |p.blocks|
        invariant 0 <= px <= |p.blocks|
        invariant forall i, j :: 0 <= i < px && 0 <= j < |p.blocks[i]| && p.blocks[i][j] != 0 ==>
          b.Get(ax + i - 1, ay + j - 1) == 0
      {
        var py := 0;
        while py < |p.blocks[px]|
          invariant 0 <= py <= |p.blocks[px]|
          invariant forall i, j :: 0 <= i < px && 0 <= j < |p.blocks[i]| && p.blocks[i][j] != 0 ==>
            b.Get(ax + i - 1, ay + j - 1) == 0
          invariant forall j :: 0 <= j < py && p.blocks[px][j] != 0 ==> b.Get(ax + px - 1, ay + j - 1) == 0
        {
          var val := p.blocks[px][py];
          if val != 0 {
            var onGrid := Get(px + ax - 1, py + ay - 1);
            if onGrid != 0 {
              return false;
            }
          }
          py := py + 1;
        }
        px := px + 1;
      }
      return true;
    }

    /** Plays `p` with its centre at (ax, ay) if it fits, writing each
        non-empty pattern cell; if it does not fit no cell is written. */
    method PlayPiece(p: Piece, ax: int, ay: int)
      requires Valid()
      modifies cells
      ensures Board() == if Fits(old(Board()), p, ax, ay) then Place(old(Board()), p, ax, ay) else old(Board())
    {
      ghost var b := Board();
      var ok := CanPlayPiece(p, ax, ay);
      if ok {
        var px := 0;
        while px < |p.blocks|
          invariant 0 <= px <= |p.blocks|
          invariant forall x, y :: 0 <= x < cols && 0 <= y < rows ==>
            cells[x, y] == if Cover(p, ax, ay, x, y) != 0 && x - ax + 1 < px then Cover(p, ax, ay, x, y) else b.cells[x][y]
        {
          var py := 0;
          while py < |p.blocks[px]|
            invariant 0 <= py <= |p.blocks[px]|
            invariant forall x, y :: 0 <= x < cols && 0 <= y < rows ==>
              cells[x, y] ==
                if Cover(p, ax, ay, x, y) != 0 && (x - ax + 1 < px || (x - ax + 1 == px && y - ay + 1 < py))
                then Cover(p, ax, ay, x, y) else b.cells[x][y]
          {
            var val := p.blocks[px][py];
            if val != 0 {
              assert b.Get(px + ax - 1, py + ay - 1) == 0;
              Set(px + ax - 1, py + ay - 1, val);
            }
            py := py + 1;
          }
          px := px + 1;
        }
        Extensionality(Board(), Place(b, p, ax, ay));
      }
    }
  }
}
