/** The game engine: score, level, lives, multiplier, the current and
    following piece, line clearing after each placement, and the round
    timer that costs a life when it runs out.

    The timer is modelled by what the engine asks of it: `armedDelay` is
    the delay passed to the latest scheduling and `arms` counts the
    schedulings; an expiry is an explicit call of `GameLoop`. Pieces the
    source draws at random are parameters. */
module GameState {
  import opened Pieces
  import opened Boards
  import opened Lines
  import opened Scoring
  import opened GridState

  class Game {
    const cols: nat
    const rows: nat
    const grid: Grid

    var score: int
    var level: int
    var lives: int
    var multiplier: int
    /** None until the game is initialised. */
    var currentPiece: Option<Piece>
    var followingPiece: Option<Piece>
    /** The delay, in milliseconds, of the most recent round-timer scheduling
        (0 before the first). */
    var armedDelay: int
    /** How many times the round timer has been scheduled. */
    var arms: nat
    /** How many times the game-over event has been raised. */
    var gameOverSignals: nat

    /** The session invariant every operation keeps. */
    ghost predicate Valid()
      reads this
    {
      grid.Valid() && grid.cols == cols && grid.rows == rows &&
      score >= 0 && level >= 0 && lives >= 0 && multiplier >= 1
    }

    /** A new session on an empty `cols` x `rows` grid: no score, level 0,
        three lives, multiplier 1, no pieces yet and no timer armed. */
    constructor (cols: nat, rows: nat)
      ensures Valid() && fresh(grid) && fresh(grid.cells)
      ensures this.cols == cols && this.rows == rows
      ensures forall x, y :: 0 <= x < cols && 0 <= y < rows ==> grid.cells[x, y] == 0
      ensures score == 0 && level == 0 && lives == 3 && multiplier == 1
      ensures currentPiece == None && followingPiece == None
      ensures armedDelay == 0 && arms == 0 && gameOverSignals == 0
    {
      this.cols := cols;
      this.rows := rows;
      grid := new Grid(cols, rows);
      score, level, lives, multiplier := 0, 0, 3, 1;
      currentPiece, followingPiece := None, None;
      armedDelay, arms, gameOverSignals := 0, 0, 0;
    }

    /** (Re)schedules the round timer for the current level's delay,
        replacing any pending expiry. */
    method ScheduleRound()
      modifies this`armedDelay, this`arms
      ensures armedDelay == TimerDelay(level) && arms == old(arms) + 1
    {
      armedDelay := TimerDelay(level);
      arms := arms + 1;
    }

    /** Starts the game: initialises the piece pair and arms the timer. */
    method Start(first: Piece, second: Piece)
      requires Valid()
      modifies this
      ensures Valid()
      ensures currentPiece == Some(first) && followingPiece == Some(second)
      ensures armedDelay == TimerDelay(level) && arms == old(arms) + 1
      ensures score == old(score) && level == old(level) && lives == old(lives)
      ensures multiplier == old(multiplier) && gameOverSignals == old(gameOverSignals)
    {
      InitialiseGame(first, second);
      ScheduleRound();
    }

    /** The first spawned piece becomes the following piece and is at once
        advanced into the current one; the second spawn follows it. */
    method InitialiseGame(first: Piece, second: Piece)
      modifies this`currentPiece, this`followingPiece
      ensures currentPiece == Some(first) && followingPiece == Some(second)
    {
      followingPiece := Some(first);
      NextPiece(second);
    }

    /** The following piece becomes current and a new piece follows it. */
    method NextPiece(spawned: Piece)
      modifies this`currentPiece, this`followingPiece
      ensures currentPiece == old(followingPiece) && followingPiece == Some(spawned)
    {
      currentPiece := followingPiece;
      followingPiece := Some(spawned);
    }

    /** Exchanges the current and the following piece. */
    method SwapCurrentPiece()
      modifies this`currentPiece, this`followingPiece
      ensures currentPiece == old(followingPiece) && followingPiece == old(currentPiece)
    {
      var held := currentPiece;
      currentPiece := followingPiece;
      followingPiece := held;
    }

    /** Replaces the current piece by its rotation; `rotation` stands for the
        piece's own rotate operation, which is not part of this model. */
    method RotateCurrentPiece(rotation: Piece -> Piece)
      requires currentPiece.Some?
      modifies this`currentPiece
      ensures currentPiece == Some(rotation(old(currentPiece.value)))
    {
      currentPiece := Some(rotation(currentPiece.value));
    }

    /** Adds the points for a clear of `lines` lines and `blocks` blocks at
        the current multiplier. */
    method Score(lines: int, blocks: int)
      modifies this`score
      ensures score == old(score) + lines * blocks * multiplier * 10
    {
      score := score + lines * blocks * multiplier * 10;
    }

    /** Buys a life for 500 points when the score allows it; the level is
        not recomputed. `added` says which cue the player hears. */
    method AddLife() returns (added: bool)
      requires Valid()
      modifies this`lives, this`score
      ensures Valid()
      ensures added == (old(score) >= 500)
      ensures added ==> lives == old(lives) + 1 && score == old(score) - 500
      ensures !added ==> lives == old(lives) && score == old(score)
      ensures level == old(level)
    {
      added := score >= 500;
      if added {
        lives := lives + 1;
        score := score - 500;
      }
    }

    /** A round expired: lose a life, or, with none left, raise game over. */
    method UpdateLives()
      requires Valid()
      modifies this`lives, this`gameOverSignals
      ensures Valid()
      ensures old(lives) > 0 ==> lives == old(lives) - 1 && gameOverSignals == old(gameOverSignals)
      ensures old(lives) == 0 ==> lives == 0 && gameOverSignals == old(gameOverSignals) + 1
    {
      if lives > 0 {
        lives := lives - 1;
      } else {
        gameOverSignals := gameOverSignals + 1;
      }
    }

    /** The round timer fired: lose a life (or signal game over), drop the
        multiplier back to 1, advance the pieces and re-arm the timer. None
        of this stops once the game is over. */
    method GameLoop(spawned: Piece)
      requires Valid()
      modifies this
      ensures Valid()
      ensures lives == if old(lives) > 0 then old(lives) - 1 else 0
      ensures gameOverSignals == old(gameOverSignals) + if old(lives) == 0 then 1 else 0
      ensures multiplier == 1
      ensures currentPiece == old(followingPiece) && followingPiece == Some(spawned)
      ensures armedDelay == TimerDelay(level) && arms == old(arms) + 1
      ensures score == old(score) && level == old(level)
    {
      UpdateLives();
      if multiplier > 1 {
        multiplier := 1;
      }
      NextPiece(spawned);
      ScheduleRound();
    }

    /** The number of non-empty cells in column x; it reaches `rows`
        exactly when the column is full. */
    method CountColumn(x: int) returns (count: nat)
      requires Valid() && 0 <= x < cols
      ensures count <= rows
      ensures count == rows <==> FullColumn(grid.Board(), x)
    {
      ghost var b := grid.Board();
      count := 0;
      var y := 0;
      while y < rows
        invariant 0 <= y <= rows
        invariant count <= y
        invariant count == y <==> forall j :: 0 <= j < y ==> b.cells[x][j] != 0
      {
        var v := grid.Get(x, y);
        if v != 0 {
          count := count + 1;
        }
        y := y + 1;
      }
    }

    /** The length of the run of non-empty cells at the start of row y; it
        reaches `cols` exactly when the row is full. */
    method CountRow(y: int) returns (count: nat)
      requires Valid() && 0 <= y < rows
      ensures count <= cols
      ensures count == cols <==> FullRow(grid.Board(), y)
    {
      ghost var b := grid.Board();
      count := 0;
      var x := 0;
      while x < cols
        invariant 0 <= x <= cols
        invariant count == x
        invariant forall i :: 0 <= i < x ==> b.cells[i][y] != 0
      {
        var v := grid.Get(x, y);
        if v == 0 {
          break;
        }
        count := count + 1;
        x := x + 1;
      }
    }

    /** Adds the cells of column x to `clear`. */
    method CollectColumn(clear: set<(int, int)>, x: int) returns (clear': set<(int, int)>)
      ensures clear' == clear + Product({x}, Range(rows))
    {
      clear' := clear;
      var y := 0;
      while y < rows
        invariant 0 <= y <= rows
        invariant clear' == clear + Product({x}, Range(y))
      {
        ProductAddSecond({x}, Range(y), y);
        ProductOfSingletons(x, y);
        clear' := clear' + {(x, y)};
        y := y + 1;
      }
    }

    /** Adds the cells of row y to `clear`. */
    method CollectRow(clear: set<(int, int)>, y: int) returns (clear': set<(int, int)>)
      ensures clear' == clear + Product(Range(cols), {y})
    {
      clear' := clear;
      var x := 0;
      while x < cols
        invariant 0 <= x <= cols
        invariant clear' == clear + Product(Range(x), {y})
      {
        ProductAddFirst(Range(x), x, {y});
        ProductOfSingletons(x, y);
        clear' := clear' + {(x, y)};
        x := x + 1;
      }
    }

    /** The column scan: a column whose count of non-empty cells reaches
        `rows` is one more line, and all its cells are collected. */
    method ScanColumns() returns (lines: nat, clear: set<(int, int)>)
      requires Valid()
      ensures lines == |FullColumns(grid.Board())|
      ensures clear == ColumnCells(grid.Board())
    {
      ghost var b := grid.Board();
      lines, clear := 0, {};
      var x := 0;
      while x < cols
        invariant 0 <= x <= cols
        invariant lines == |FullColumnsBelow(b, x)|
        invariant clear == Product(FullColumnsBelow(b, x), Range(rows))
      {
        var count := CountColumn(x);
        FullColumnsBelowStep(b, x);
        if count == rows {
          lines := lines + 1;
          clear := CollectColumn(clear, x);
          ProductAddFirst(FullColumnsBelow(b, x), x, Range(rows));
        }
        x := x + 1;
      }
    }

    /** The row scan, continuing the line count and cell set of the column
        scan: a row walked to its end without meeting an empty cell is one
        more line, and all its cells are collected. */
    method ScanRows(linesSoFar: nat, clearSoFar: set<(int, int)>) returns (lines: nat, clear: set<(int, int)>)
      requires Valid()
      ensures lines == linesSoFar + |FullRows(grid.Board())|
      ensures clear == clearSoFar + RowCells(grid.Board())
    {
      ghost var b := grid.Board();
      lines, clear := linesSoFar, clearSoFar;
      var y := 0;
      while y < rows
        invariant 0 <= y <= rows
        invariant lines == linesSoFar + |FullRowsBelow(b, y)|
        invariant clear == clearSoFar + Product(Range(cols), FullRowsBelow(b, y))
      {
        var count := CountRow(y);
        FullRowsBelowStep(b, y);
        if count == cols {
          lines := lines + 1;
          clear := CollectRow(clear, y);
          ProductAddSecond(Range(cols), FullRowsBelow(b, y), y);
        }
        y := y + 1;
      }
    }

    /** Empties the cells of the full lines, in whatever order the set
        yields them; no other cell changes. */
    method ZeroCells(clear: set<(int, int)>)
      requires Valid() && clear == ClearedCells(grid.Board())
      modifies grid.cells
      ensures grid.Board() == ClearLines(old(grid.Board()))
    {
      ghost var b := grid.Board();
      forall c | c in clear
        ensures 0 <= c.0 < cols && 0 <= c.1 < rows
      {
        ClearedCellsMember(b, c);
      }
      var todo := clear;
      while todo != {}
        invariant todo <= clear
        invariant forall x, y :: 0 <= x < cols && 0 <= y < rows ==>
          grid.cells[x, y] == if (x, y) in clear && (x, y) !in todo then 0 else b.cells[x][y]
        decreases |todo|
      {
        NoMemberMeansEmpty(todo);
        var c :| c in todo;
        grid.cells[c.0, c.1] := 0;
        todo := todo - {c};
      }
      EmptiedCellsAreClearLines(b, grid.Board());
    }

    /** Line clearing after a placement. Lines are the full columns plus the
        full rows, blocks the distinct cells they cover. A clearing round
        scores lines * blocks * multiplier * 10, raises the multiplier by
        one, recomputes the level from the new score and empties those
        cells; a round without a line drops the multiplier back to 1. */
    method AfterPiece() returns (linesCleared: nat, blocksCleared: nat)
      requires Valid()
      modifies this, grid.cells
      ensures Valid()
      ensures linesCleared == LinesCleared(old(grid.Board()))
      ensures blocksCleared == |ClearedCells(old(grid.Board()))|
      ensures linesCleared > 0 ==>
        score == old(score) + linesCleared * blocksCleared * old(multiplier) * 10 &&
        multiplier == old(multiplier) + 1 &&
        level == LevelFor(score) &&
        grid.Board() == ClearLines(old(grid.Board()))
      ensures linesCleared == 0 ==>
        score == old(score) && level == old(level) && multiplier == 1 &&
        grid.Board() == old(grid.Board())
      ensures lives == old(lives) && gameOverSignals == old(gameOverSignals)
      ensures currentPiece == old(currentPiece) && followingPiece == old(followingPiece)
      ensures armedDelay == old(armedDelay) && arms == old(arms)
    {
      ghost var b := grid.Board();
      var lines, clear := ScanColumns();
      lines, clear := ScanRows(lines, clear);
      if lines > 0 {
        var blocks := |clear|;
        PointsNonNegative(lines, blocks, multiplier);
        Score(lines, blocks);
        multiplier := multiplier + 1;
        level := LevelFor(score);
        ZeroCells(clear);
      } else {
        if multiplier > 1 {
          multiplier := 1;
        }
      }
      linesCleared, blocksCleared := lines, |clear|;
    }

    /** The player clicked grid cell (x, y). If the current piece fits there
        it is played, lines are cleared, the pieces advance and the round
        timer restarts; otherwise nothing changes (the player only hears a
        failure cue). */
    method BlockClicked(x: int, y: int, spawned: Piece) returns (placed: bool)
      requires Valid() && currentPiece.Some?
      modifies this, grid.cells
      ensures Valid()
      ensures placed == Fits(old(grid.Board()), old(currentPiece.value), x, y)
      ensures !placed ==> unchanged(this) && unchanged(grid.cells)
      ensures placed ==>
        var board := Place(old(grid.Board()), old(currentPiece.value), x, y);
        var lines := LinesCleared(board);
        var blocks := |ClearedCells(board)|;
        && grid.Board() == (if lines > 0 then ClearLines(board) else board)
        && score == old(score) + lines * blocks * old(multiplier) * 10
        && multiplier == (if lines > 0 then old(multiplier) + 1 else 1)
        && level == (if lines > 0 then LevelFor(score) else old(level))
        && lives == old(lives) && gameOverSignals == old(gameOverSignals)
        && currentPiece == old(followingPiece) && followingPiece == Some(spawned)
        && armedDelay == TimerDelay(level) && arms == old(arms) + 1
    {
      var piece := currentPiece.value;
      placed := grid.CanPlayPiece(piece, x, y);
      if placed {
        grid.PlayPiece(piece, x, y);
        var lines, blocks := AfterPiece();
        NextPiece(spawned);
        ScheduleRound();
      }
    }
  }
}
