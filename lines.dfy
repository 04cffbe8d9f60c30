/** Line detection and clearing on a board snapshot: which columns and rows
    are full, the set of cells they cover, how many blocks that is, and the
    board after those cells are emptied. */
module Lines {
  import opened Boards

  /** The integers 0 .. n-1. */
  function Range(n: nat): (r: set<int>)
    ensures forall i :: i in r <==> 0 <= i < n
  {
    if n == 0 then {} else Range(n - 1) + {n - 1}
  }

  /** All coordinate pairs with first component in xs and second in ys. */
  function Product(xs: set<int>, ys: set<int>): set<(int, int)> {
    set x, y | x in xs && y in ys :: (x, y)
  }

  /** Column x has no empty cell. */
  predicate FullColumn(b: Board, x: int)
    requires b.Valid() && 0 <= x < b.cols
  {
    forall y :: 0 <= y < b.rows ==> b.cells[x][y] != 0
  }

  /** Row y has no empty cell. */
  predicate FullRow(b: Board, y: int)
    requires b.Valid() && 0 <= y < b.rows
  {
    forall x :: 0 <= x < b.cols ==> b.cells[x][y] != 0
  }

  /** The full columns among the first n. */
  function FullColumnsBelow(b: Board, n: nat): set<int>
    requires b.Valid() && n <= b.cols
  {
    set x | 0 <= x < n && FullColumn(b, x)
  }

  /** The full rows among the first n. */
  function FullRowsBelow(b: Board, n: nat): set<int>
    requires b.Valid() && n <= b.rows
  {
    set y | 0 <= y < n && FullRow(b, y)
  }

  function FullColumns(b: Board): set<int>
    requires b.Valid()
  {
    FullColumnsBelow(b, b.cols)
  }

  function FullRows(b: Board): set<int>
    requires b.Valid()
  {
    FullRowsBelow(b, b.rows)
  }

  /** The number of lines a clearing round counts: full columns plus full
      rows, so a cell where a full column meets a full row counts for both. */
  function LinesCleared(b: Board): nat
    requires b.Valid()
  {
    |FullColumns(b)| + |FullRows(b)|
  }

  /** The cells of the full columns. */
  function ColumnCells(b: Board): set<(int, int)>
    requires b.Valid()
  {
    Product(FullColumns(b), Range(b.rows))
  }

  /** The cells of the full rows. */
  function RowCells(b: Board): set<(int, int)>
    requires b.Valid()
  {
    Product(Range(b.cols), FullRows(b))
  }

  /** The distinct cells of all full lines: a cell shared by a full column
      and a full row is in the set once. */
  function ClearedCells(b: Board): set<(int, int)>
    requires b.Valid()
  {
    ColumnCells(b) + RowCells(b)
  }

  /** The board with every cell of a full line emptied. */
  function ClearLines(b: Board): (r: Board)
    requires b.Valid()
    ensures r.Valid() && r.cols == b.cols && r.rows == b.rows
  {
    Board(b.cols, b.rows,
      seq(b.cols, x requires 0 <= x < b.cols =>
        seq(b.rows, y requires 0 <= y < b.rows =>
          if FullColumn(b, x) || FullRow(b, y) then 0 else b.cells[x][y])))
  }

  lemma ProductMember(xs: set<int>, ys: set<int>, c: (int, int))
    ensures c in Product(xs, ys) <==> c.0 in xs && c.1 in ys
  {
    if c.0 in xs && c.1 in ys {
      var x, y := c.0, c.1;
      assert (x, y) in Product(xs, ys);
    }
  }

  /** A cell is cleared exactly when it is on the grid and lies in a full
      column or a full row. */
  lemma {:induction false} ClearedCellsMember(b: Board, c: (int, int))
    requires b.Valid()
    ensures c in ClearedCells(b) <==>
      b.InBounds(c.0, c.1) && (FullColumn(b, c.0) || FullRow(b, c.1))
  {
    ProductMember(FullColumns(b), Range(b.rows), c);
    ProductMember(Range(b.cols), FullRows(b), c);
  }

  /** Growing the first component's set by one value adds that value's
      pairs. */
  lemma {:induction false} ProductAddFirst(xs: set<int>, x: int, ys: set<int>)
    ensures Product(xs + {x}, ys) == Product(xs, ys) + Product({x}, ys)
  {
    forall c
      ensures c in Product(xs + {x}, ys) <==> c in Product(xs, ys) + Product({x}, ys)
    {
      ProductMember(xs + {x}, ys, c);
      ProductMember(xs, ys, c);
      ProductMember({x}, ys, c);
    }
  }

  /** Growing the second component's set by one value adds that value's
      pairs. */
  lemma {:induction false} ProductAddSecond(xs: set<int>, ys: set<int>, y: int)
    ensures Product(xs, ys + {y}) == Product(xs, ys) + Product(xs, {y})
  {
    forall c
      ensures c in Product(xs, ys + {y}) <==> c in Product(xs, ys) + Product(xs, {y})
    {
      ProductMember(xs, ys + {y}, c);
      ProductMember(xs, ys, c);
      ProductMember(xs, {y}, c);
    }
  }

  lemma ProductOfSingletons(x: int, y: int)
    ensures Product({x}, {y}) == {(x, y)}
  {
    forall c
      ensures c in Product({x}, {y}) <==> c == (x, y)
    {
      ProductMember({x}, {y}, c);
    }
  }

  /** Scanning one more column adds it to the full ones exactly when it is full. */
  lemma FullColumnsBelowStep(b: Board, n: nat)
    requires b.Valid() && n < b.cols
    ensures n !in FullColumnsBelow(b, n)
    ensures FullColumnsBelow(b, n + 1) == FullColumnsBelow(b, n) + (if FullColumn(b, n) then {n} else {})
  {
  }

  /** Scanning one more row adds it to the full ones exactly when it is full. */
  lemma FullRowsBelowStep(b: Board, n: nat)
    requires b.Valid() && n < b.rows
    ensures n !in FullRowsBelow(b, n)
    ensures FullRowsBelow(b, n + 1) == FullRowsBelow(b, n) + (if FullRow(b, n) then {n} else {})
  {
  }

  /** A set without members is empty. */
  lemma NoMemberMeansEmpty<T>(s: set<T>)
    ensures (forall e :: e !in s) ==> s == {}
  {
  }

  lemma {:induction false} RangeSize(n: nat)
    ensures |Range(n)| == n
  {
    if n > 0 {
      RangeSize(n - 1);
      var r := Range(n - 1);
      assert n - 1 !in r;
      assert |r + {n - 1}| == |r| + 1;
    }
  }

  /** Pairing every member of ys with one x keeps the count. */
  lemma {:induction false} PairsWithSize(x: int, ys: set<int>, m: nat)
    requires forall y :: y in ys ==> 0 <= y < m
    ensures |Product({x}, ys)| == |ys|
  {
    if m == 0 {
      assert forall e :: e !in ys;
      NoMemberMeansEmpty(ys);
      forall c
        ensures c !in Product({x}, ys)
      {
        ProductMember({x}, ys, c);
      }
      NoMemberMeansEmpty(Product({x}, ys));
    } else {
      var rest := ys - {m - 1};
      PairsWithSize(x, rest, m - 1);
      if m - 1 in ys {
        assert ys == rest + {m - 1};
        ProductAddSecond({x}, rest, m - 1);
        ProductOfSingletons(x, m - 1);
        ProductMember({x}, rest, (x, m - 1));
      } else {
        assert rest == ys;
      }
    }
  }

  /** The pairs of two disjoint first-component sets are disjoint. */
  lemma {:induction false} ProductsDisjoint(xs: set<int>, x: int, ys: set<int>)
    requires x !in xs
    ensures Product(xs, ys) * Product({x}, ys) == {}
  {
    forall c
      ensures c !in Product(xs, ys) * Product({x}, ys)
    {
      ProductMember(xs, ys, c);
      ProductMember({x}, ys, c);
    }
    NoMemberMeansEmpty(Product(xs, ys) * Product({x}, ys));
  }

  /** Adding a new first component x adds the pairs of x, none of which was
      there before. */
  lemma {:induction false} AddColumnCells(xs: set<int>, x: int, ys: set<int>)
    requires x !in xs
    ensures |Product(xs + {x}, ys)| == |Product(xs, ys)| + |Product({x}, ys)|
  {
    ProductAddFirst(xs, x, ys);
    ProductsDisjoint(xs, x, ys);
    var p, q := Product(xs, ys), Product({x}, ys);
    assert |p + q| == |p| + |q|;
  }

  /** Adding one new first component adds |ys| pairs. */
  lemma {:induction false} AddColumnSize(xs: set<int>, x: int, ys: set<int>)
    requires x in xs
    requires |Product(xs - {x}, ys)| == |xs - {x}| * |ys| && |Product({x}, ys)| == |ys|
    ensures |Product(xs, ys)| == |xs| * |ys|
  {
    var rest := xs - {x};
    assert xs == rest + {x};
    AddColumnCells(rest, x, ys);
    var k, n := |rest|, |ys|;
    assert |xs| == k + 1;
    assert (k + 1) * n == k * n + n;
  }

  /** With no first component there are no pairs. */
  lemma {:induction false} EmptyProduct(xs: set<int>, ys: set<int>)
    requires forall e :: e !in xs
    ensures |xs| == 0 && |Product(xs, ys)| == 0
  {
    assert forall e :: e !in xs;
    NoMemberMeansEmpty(xs);
    forall c
      ensures c !in Product(xs, ys)
    {
      ProductMember(xs, ys, c);
    }
    NoMemberMeansEmpty(Product(xs, ys));
  }

  /** The number of pairs is the product of the two sizes. */
  lemma {:induction false} ProductSize(xs: set<int>, ys: set<int>, n: nat, m: nat)
    requires forall x :: x in xs ==> 0 <= x < n
    requires forall y :: y in ys ==> 0 <= y < m
    ensures |Product(xs, ys)| == |xs| * |ys|
  {
    if n == 0 {
      assert forall e :: e !in xs;
      EmptyProduct(xs, ys);
    } else if n - 1 in xs {
      ProductSize(xs - {n - 1}, ys, n - 1, m);
      PairsWithSize(n - 1, ys, m);
      AddColumnSize(xs, n - 1, ys);
    } else {
      ProductSize(xs, ys, n - 1, m);
    }
  }

  /** The cells where a full column crosses a full row. */
  lemma {:induction false} CrossingCells(b: Board)
    requires b.Valid()
    ensures ColumnCells(b) * RowCells(b) == Product(FullColumns(b), FullRows(b))
  {
    var fc, fr := FullColumns(b), FullRows(b);
    forall c | c in ColumnCells(b) * RowCells(b)
      ensures c in Product(fc, fr)
    {
      ProductMember(fc, Range(b.rows), c);
      ProductMember(Range(b.cols), fr, c);
      ProductMember(fc, fr, c);
    }
    forall c | c in Product(fc, fr)
      ensures c in ColumnCells(b) * RowCells(b)
    {
      ProductMember(fc, Range(b.rows), c);
      ProductMember(Range(b.cols), fr, c);
      ProductMember(fc, fr, c);
    }
  }

  /** Inclusion-exclusion for the cleared cells: with C full columns of
      `rows` cells each and R full rows of `cols` cells each, the C * R
      crossing cells are counted once. */
  lemma {:induction false} ClearedCellsSize(b: Board)
    requires b.Valid()
    ensures |ClearedCells(b)| ==
      |FullColumns(b)| * b.rows + |FullRows(b)| * b.cols - |FullColumns(b)| * |FullRows(b)|
  {
    var fc, fr := FullColumns(b), FullRows(b);
    var cc, rc := ColumnCells(b), RowCells(b);
    ProductSize(fc, Range(b.rows), b.cols, b.rows);
    ProductSize(Range(b.cols), fr, b.cols, b.rows);
    ProductSize(fc, fr, b.cols, b.rows);
    RangeSize(b.rows);
    RangeSize(b.cols);
    CrossingCells(b);
    var c, r := |fc|, |fr|;
    assert |cc| == c * b.rows;
    assert |rc| == b.cols * r;
    assert |cc * rc| == c * r;
    assert |cc + rc| + |cc * rc| == |cc| + |rc|;
  }

  /** One full column and no full row on the board: one line of `rows` blocks. */
  lemma OneFullColumn(b: Board, x: int)
    requires b.Valid() && FullColumns(b) == {x} && FullRows(b) == {}
    ensures LinesCleared(b) == 1 && |ClearedCells(b)| == b.rows
  {
    ClearedCellsSize(b);
    var c, r := |FullColumns(b)|, |FullRows(b)|;
    assert c == 1 && r == 0;
    assert c * b.rows == b.rows && r * b.cols == 0 && c * r == 0;
  }

  /** One full row and no full column on the board: one line of `cols` blocks. */
  lemma OneFullRow(b: Board, y: int)
    requires b.Valid() && FullColumns(b) == {} && FullRows(b) == {y}
    ensures LinesCleared(b) == 1 && |ClearedCells(b)| == b.cols
  {
    ClearedCellsSize(b);
    var c, r := |FullColumns(b)|, |FullRows(b)|;
    assert c == 0 && r == 1;
    assert c * b.rows == 0 && r * b.cols == b.cols && c * r == 0;
  }

  /** A full row crossing a full column: two lines, and the crossing cell is
      one block, so cols + rows - 1 blocks (9 on a 5 x 5 grid). */
  lemma RowMeetsColumn(b: Board, x: int, y: int)
    requires b.Valid() && FullColumns(b) == {x} && FullRows(b) == {y}
    ensures LinesCleared(b) == 2 && |ClearedCells(b)| == b.cols + b.rows - 1
  {
    ClearedCellsSize(b);
    var c, r := |FullColumns(b)|, |FullRows(b)|;
    assert c == 1 && r == 1;
    assert c * b.rows == b.rows && r * b.cols == b.cols && c * r == 1;
  }

  /** Every cell of a full line is emptied and no other cell changes. */
  lemma ClearLinesCells(b: Board)
    requires b.Valid()
    ensures forall x, y :: b.InBounds(x, y) ==>
      ClearLines(b).cells[x][y] == if (x, y) in ClearedCells(b) then 0 else b.cells[x][y]
  {
    forall x, y | b.InBounds(x, y)
      ensures ClearLines(b).cells[x][y] == if (x, y) in ClearedCells(b) then 0 else b.cells[x][y]
    {
      ClearedCellsMember(b, (x, y));
    }
  }

  /** A board that empties exactly the cleared cells of b, keeping every other
      cell, is the board `ClearLines` yields. */
  lemma {:induction false} EmptiedCellsAreClearLines(b: Board, r: Board)
    requires b.Valid() && r.Valid() && r.cols == b.cols && r.rows == b.rows
    requires forall x, y :: 0 <= x < b.cols && 0 <= y < b.rows ==>
      r.cells[x][y] == if (x, y) in ClearedCells(b) then 0 else b.cells[x][y]
    ensures r == ClearLines(b)
  {
    ClearLinesCells(b);
    Extensionality(r, ClearLines(b));
  }

  /** With no full line there is nothing to clear. */
  lemma {:induction false} NoLinesNoCells(b: Board)
    requires b.Valid() && LinesCleared(b) == 0
    ensures ClearedCells(b) == {} && ClearLines(b) == b
  {
    forall c
      ensures c !in ClearedCells(b)
    {
      ClearedCellsMember(b, c);
      if b.InBounds(c.0, c.1) {
        assert c.0 !in FullColumns(b) && c.1 !in FullRows(b);
      }
    }
    forall x, y | b.InBounds(x, y)
      ensures ClearLines(b).cells[x][y] == b.cells[x][y]
    {
      assert x !in FullColumns(b) && y !in FullRows(b);
    }
    Extensionality(ClearLines(b), b);
  }

  /** Clearing is idempotent: right after a clear, on a grid with at least one
      column and one row, no line is full. (With no rows every column is
      vacuously full, and with no columns every row is.) */
  lemma {:induction false} NoFullLineAfterClear(b: Board)
    requires b.Valid() && b.cols > 0 && b.rows > 0
    ensures FullColumns(ClearLines(b)) == {} && FullRows(ClearLines(b)) == {}
    ensures LinesCleared(ClearLines(b)) == 0
  {
    var r := ClearLines(b);
    forall x | 0 <= x < b.cols
      ensures !FullColumn(r, x)
    {
      if FullColumn(b, x) {
        assert r.cells[x][0] == 0;
      } else {
        var y :| 0 <= y < b.rows && b.cells[x][y] == 0;
        assert r.cells[x][y] == 0;
      }
    }
    forall y | 0 <= y < b.rows
      ensures !FullRow(r, y)
    {
      if FullRow(b, y) {
        assert r.cells[0][y] == 0;
      } else {
        var x :| 0 <= x < b.cols && b.cells[x][y] == 0;
        assert r.cells[x][y] == 0;
      }
    }
    assert FullColumns(r) == {};
    assert FullRows(r) == {};
  }
}
