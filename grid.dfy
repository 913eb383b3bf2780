/** The value-level picture of a maze grid: what each cell holds once it has
    been built, how `_create_cells` lays the cells out row by row, and what
    `_break_entrance_and_exit` changes. The classes in module MazeModel are
    proved to produce exactly these values. */
module Grid {

  /** The state of one cell: its bounding box on the canvas and its four
      wall flags (true means the wall is present). */
  datatype CellValue = CellValue(
    upperLeftX: int, upperLeftY: int,
    lowerRightX: int, lowerRightY: int,
    rightWall: bool, leftWall: bool, topWall: bool, bottomWall: bool)

  /** A grid of cell values, indexed first by row, then by column. */
  type Cells = seq<seq<CellValue>>

  /** The construction parameters of a maze that decide its cells. */
  datatype Layout = Layout(
    xOrigin: int, yOrigin: int,
    numRows: int, numCols: int,
    cellSizeX: int, cellSizeY: int)

  /** The one failure of construction: indexing an empty row. */
  datatype MazeError = IndexError

  datatype Result<T> = Ok(value: T) | Err(error: MazeError)

  datatype Outcome = Pass | Fail(error: MazeError)

  /** The number of indices `range(n)` yields: none when `n` is not positive. */
  function Span(n: int): nat {
    if n <= 0 then 0 else n
  }

  /** A freshly constructed cell: upper-left corner at (x, y), lower-right
      corner one cell size further, every wall present. */
  function NewCell(x: int, y: int, cellSizeX: int, cellSizeY: int): CellValue {
    CellValue(x, y, x + cellSizeX, y + cellSizeY, true, true, true, true)
  }

  predicate AllWalls(c: CellValue) {
    c.rightWall && c.leftWall && c.topWall && c.bottomWall
  }

  /** The cell `_create_cells` builds at row `i`, column `j`: the column
      drives x and the row drives y. */
  function CellAt(l: Layout, i: int, j: int): CellValue {
    NewCell(j * l.cellSizeX + l.xOrigin, i * l.cellSizeY + l.yOrigin, l.cellSizeX, l.cellSizeY)
  }

  /** The first `m` cells the inner loop appends to row `i`. */
  function CreateRow(l: Layout, i: int, m: nat): (r: seq<CellValue>)
    ensures |r| == m
  {
    if m == 0 then [] else CreateRow(l, i, m - 1) + [CellAt(l, i, m - 1)]
  }

  /** The first `n` rows the outer loop appends to the grid. */
  function CreateRows(l: Layout, n: nat): (r: Cells)
    ensures |r| == n
    ensures forall i :: 0 <= i < n ==> |r[i]| == Span(l.numCols)
  {
    if n == 0 then [] else CreateRows(l, n - 1) + [CreateRow(l, n - 1, Span(l.numCols))]
  }

  /** The grid `_create_cells` leaves behind. */
  function CreateCells(l: Layout): Cells {
    CreateRows(l, Span(l.numRows))
  }

  /** `g` has `rows` rows of `cols` entries each (none when a count is not positive). */
  predicate Shaped<T>(g: seq<seq<T>>, rows: int, cols: int) {
    |g| == Span(rows) && forall i :: 0 <= i < |g| ==> |g[i]| == Span(cols)
  }

  /** `g` with the cell at row `i`, column `j` replaced by `v`. */
  function SetCell(g: Cells, i: int, j: int, v: CellValue): Cells
    requires 0 <= i < |g| && 0 <= j < |g[i]|
  {
    g[i := g[i][j := v]]
  }

  /** `_break_entrance_and_exit` on the grid `g` of a `rows` by `cols` maze:
      nothing happens to an empty grid; a grid whose first row is empty
      fails on `_cells[0][0]`; otherwise the top wall of the first cell is
      removed, then the bottom wall of the last cell. */
  function BreakEntranceAndExit(g: Cells, rows: int, cols: int): Result<Cells>
    requires Shaped(g, rows, cols)
  {
    if |g| == 0 then Ok(g)
    else if |g[0]| == 0 then Err(IndexError)
    else
      var g' := SetCell(g, 0, 0, g[0][0].(topWall := false));
      Ok(SetCell(g', rows - 1, cols - 1, g'[rows - 1][cols - 1].(bottomWall := false)))
  }

  /** The grid of a maze constructed with layout `l`, or the error construction raises. */
  function Build(l: Layout): Result<Cells> {
    BreakEntranceAndExit(CreateCells(l), l.numRows, l.numCols)
  }

  /** Whether (i, j) is the entrance cell. */
  predicate IsEntrance(i: int, j: int) {
    i == 0 && j == 0
  }

  /** Whether (i, j) is the exit cell of a `rows` by `cols` grid. */
  predicate IsExit(i: int, j: int, rows: int, cols: int) {
    i == rows - 1 && j == cols - 1
  }

  // ---------------------------------------------------------------------
  // Construction

  /** Closed form of the inner loop: the `j`-th appended cell is the one at column `j`. */
  lemma {:induction false} CreateRowAt(l: Layout, i: int, m: nat, j: int)
    requires 0 <= j < m
    ensures CreateRow(l, i, m)[j] == CellAt(l, i, j)
  {
    if j < m - 1 {
      CreateRowAt(l, i, m - 1, j);
    }
  }

  /** Closed form of both loops: the cell at row `i`, column `j` of the
      built grid has its upper-left corner at (j * cellSizeX + xOrigin,
      i * cellSizeY + yOrigin), its lower-right corner one cell size
      further, and all four walls. */
  lemma {:induction false} CreateCellsAt(l: Layout, i: int, j: int)
    requires 0 <= i < Span(l.numRows) && 0 <= j < Span(l.numCols)
    ensures Shaped(CreateCells(l), l.numRows, l.numCols)
    ensures var c := CreateCells(l)[i][j];
      && c.upperLeftX == j * l.cellSizeX + l.xOrigin
      && c.upperLeftY == i * l.cellSizeY + l.yOrigin
      && c.lowerRightX == c.upperLeftX + l.cellSizeX
      && c.lowerRightY == c.upperLeftY + l.cellSizeY
      && AllWalls(c)
  {
    CreateRowsAt(l, Span(l.numRows), i);
    CreateRowAt(l, i, Span(l.numCols), j);
  }

  /** The `i`-th appended row is row `i`. */
  lemma {:induction false} CreateRowsAt(l: Layout, n: nat, i: int)
    requires 0 <= i < n
    ensures CreateRows(l, n)[i] == CreateRow(l, i, Span(l.numCols))
  {
    if i < n - 1 {
      CreateRowsAt(l, n - 1, i);
    }
  }

  /** Neighbouring cells of the built grid share their common edge: the
      right edge of (i, j) is the left edge of (i, j + 1), and the bottom
      edge of (i, j) is the top edge of (i + 1, j). */
  lemma NeighboursShareEdges(l: Layout, i: int, j: int)
    requires 0 <= i < Span(l.numRows) && 0 <= j < Span(l.numCols)
    ensures j + 1 < Span(l.numCols) ==>
      CreateCells(l)[i][j].lowerRightX == CreateCells(l)[i][j + 1].upperLeftX
    ensures i + 1 < Span(l.numRows) ==>
      CreateCells(l)[i][j].lowerRightY == CreateCells(l)[i + 1][j].upperLeftY
  {
    CreateCellsAt(l, i, j);
    if j + 1 < Span(l.numCols) {
      CreateCellsAt(l, i, j + 1);
    }
    if i + 1 < Span(l.numRows) {
      CreateCellsAt(l, i + 1, j);
    }
  }

  // ---------------------------------------------------------------------
  // Entrance and exit

  /** On a grid with at least one cell, exactly two flags change: the top
      wall of the entrance and the bottom wall of the exit are removed
      (both on the same cell of a 1 by 1 grid); every other field of every
      cell, and the shape, stay as they were. */
  lemma BreakOpensOnlyEntranceAndExit(g: Cells, rows: int, cols: int, i: int, j: int)
    requires Shaped(g, rows, cols) && |g| > 0 && |g[0]| > 0
    requires 0 <= i < |g| && 0 <= j < |g[i]|
    ensures BreakEntranceAndExit(g, rows, cols).Ok?
    ensures Shaped(BreakEntranceAndExit(g, rows, cols).value, rows, cols)
    ensures var c := BreakEntranceAndExit(g, rows, cols).value[i][j];
      && c == g[i][j].(topWall := c.topWall, bottomWall := c.bottomWall)
      && c.topWall == (g[i][j].topWall && !IsEntrance(i, j))
      && c.bottomWall == (g[i][j].bottomWall && !IsExit(i, j, rows, cols))
  {
  }

  /** An empty grid is left alone, and the only failure is a grid whose
      first row is empty. */
  lemma BreakFailsIffFirstRowEmpty(g: Cells, rows: int, cols: int)
    requires Shaped(g, rows, cols)
    ensures |g| == 0 ==> BreakEntranceAndExit(g, rows, cols) == Ok(g)
    ensures BreakEntranceAndExit(g, rows, cols).Err? <==> (|g| > 0 && |g[0]| == 0)
  {
  }

  // ---------------------------------------------------------------------
  // The whole constructor

  /** Construction raises exactly when there is at least one row but no
      column; with no rows it yields the empty grid. */
  lemma BuildFailsIff(l: Layout)
    ensures Build(l).Err? <==> (l.numRows >= 1 && l.numCols <= 0)
    ensures l.numRows <= 0 ==> Build(l) == Ok([])
  {
    if l.numRows >= 1 {
      assert |CreateCells(l)[0]| == Span(l.numCols);
    }
  }

  /** The grid of a successfully constructed maze: `numRows` rows of
      `numCols` cells; each cell at its grid position with its bounding
      box; left and right walls present everywhere; the top wall missing
      only at the entrance and the bottom wall missing only at the exit. */
  lemma {:induction false} BuiltCell(l: Layout, i: int, j: int)
    requires Build(l).Ok?
    requires 0 <= i < Span(l.numRows) && 0 <= j < Span(l.numCols)
    ensures Shaped(Build(l).value, l.numRows, l.numCols)
    ensures var c := Build(l).value[i][j];
      && c.upperLeftX == j * l.cellSizeX + l.xOrigin
      && c.upperLeftY == i * l.cellSizeY + l.yOrigin
      && c.lowerRightX == c.upperLeftX + l.cellSizeX
      && c.lowerRightY == c.upperLeftY + l.cellSizeY
      && c.leftWall && c.rightWall
      && c.topWall == !IsEntrance(i, j)
      && c.bottomWall == !IsExit(i, j, l.numRows, l.numCols)
  {
    CreateCellsAt(l, i, j);
    BreakOpensOnlyEntranceAndExit(CreateCells(l), l.numRows, l.numCols, i, j);
  }

  /** With at least one row and one column, the entrance has lost its top
      wall and the exit its bottom wall. */
  lemma EntranceAndExitOpen(l: Layout)
    requires l.numRows >= 1 && l.numCols >= 1
    ensures Build(l).Ok? && Shaped(Build(l).value, l.numRows, l.numCols)
    ensures !Build(l).value[0][0].topWall
    ensures !Build(l).value[l.numRows - 1][l.numCols - 1].bottomWall
  {
    BuildFailsIff(l);
    BuiltCell(l, 0, 0);
    BuiltCell(l, l.numRows - 1, l.numCols - 1);
  }

  /** A 1 by 1 maze: its one cell is open at the top and at the bottom and
      closed on the left and on the right. */
  lemma SingleCell(l: Layout)
    requires l.numRows == 1 && l.numCols == 1
    ensures Build(l).Ok? && |Build(l).value| == 1 && |Build(l).value[0]| == 1
    ensures var c := Build(l).value[0][0];
      !c.topWall && !c.bottomWall && c.leftWall && c.rightWall
  {
    BuildFailsIff(l);
    BuiltCell(l, 0, 0);
  }
}
