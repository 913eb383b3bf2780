/** The objects of the maze: `Cell` objects with their wall flags and
    bounding box, and the `Maze` that owns a grid of them, builds it row by
    row and then opens the entrance and the exit in place. Each operation
    is proved against the value-level definitions of module Grid. */
module MazeModel {
  import opened Grid

  datatype Option<T> = None | Some(value: T)

  class Cell {
    var upperLeftX: int
    var upperLeftY: int
    var lowerRightX: int
    var lowerRightY: int
    var rightWall: bool
    var leftWall: bool
    var topWall: bool
    var bottomWall: bool

    /** The current state of this cell as a value. */
    ghost function Value(): CellValue
      reads this
    {
      CellValue(upperLeftX, upperLeftY, lowerRightX, lowerRightY,
                rightWall, leftWall, topWall, bottomWall)
    }

    /** A cell whose upper-left corner is (x, y), spanning one cell size in
        each direction, with all four walls. */
    constructor (x: int, y: int, cellSizeX: int, cellSizeY: int)
      ensures upperLeftX == x && upperLeftY == y
      ensures lowerRightX == x + cellSizeX && lowerRightY == y + cellSizeY
      ensures rightWall && leftWall && topWall && bottomWall
      ensures Value() == NewCell(x, y, cellSizeX, cellSizeY)
    {
      upperLeftX := x;
      upperLeftY := y;
      lowerRightX := x + cellSizeX;
      lowerRightY := y + cellSizeY;
      rightWall := true;
      leftWall := true;
      topWall := true;
      bottomWall := true;
    }
  }

  /** The set of cell objects in a grid. */
  ghost function Objects(g: seq<seq<Cell>>): set<Cell> {
    set i, j | 0 <= i < |g| && 0 <= j < |g[i]| :: g[i][j]
  }

  /** No cell object occurs at two positions of the grid. */
  ghost predicate Distinct(g: seq<seq<Cell>>) {
    forall i, j, i', j' ::
      0 <= i < |g| && 0 <= j < |g[i]| && 0 <= i' < |g| && 0 <= j' < |g[i']| && g[i][j] == g[i'][j']
      ==> i == i' && j == j'
  }

  /** The cells of `g` currently hold the values `v`, position by position. */
  ghost predicate Holds(g: seq<seq<Cell>>, v: Cells)
    reads Objects(g)
  {
    && |v| == |g|
    && (forall i :: 0 <= i < |g| ==> |v[i]| == |g[i]|)
    && forall i, j :: 0 <= i < |g| && 0 <= j < |g[i]| ==>
         assert g[i][j] in Objects(g); g[i][j].Value() == v[i][j]
  }

  /** Appending a row of new, pairwise different cells keeps every cell at
      one position and adds exactly the row's cells. */
  lemma AppendRow(g: seq<seq<Cell>>, row: seq<Cell>)
    requires Distinct(g)
    requires forall k :: 0 <= k < |row| ==> row[k] !in Objects(g)
    requires forall k, k' :: 0 <= k < k' < |row| ==> row[k] != row[k']
    ensures Distinct(g + [row])
    ensures Objects(g + [row]) == Objects(g) + set k | 0 <= k < |row| :: row[k]
  {
    var g' := g + [row];
    forall o | o in Objects(g') ensures o in Objects(g) || o in row {
      var a, b :| 0 <= a < |g'| && 0 <= b < |g'[a]| && o == g'[a][b];
      if a < |g| {
        assert o == g[a][b];
      }
    }
    forall a, b | 0 <= a < |g| && 0 <= b < |g[a]| ensures g[a][b] in Objects(g') {
      assert g[a][b] == g'[a][b];
    }
    forall k | 0 <= k < |row| ensures row[k] in Objects(g') {
      assert row[k] == g'[|g|][k];
    }
    forall a, b, a', b' |
      0 <= a < |g'| && 0 <= b < |g'[a]| && 0 <= a' < |g'| && 0 <= b' < |g'[a']| && g'[a][b] == g'[a'][b']
      ensures a == a' && b == b'
    {
      if a < |g| && a' < |g| {
        assert g[a][b] == g[a'][b'];
      }
    }
  }

  class Maze {
    const xOrigin: int
    const yOrigin: int
    const numRows: int
    const numCols: int
    const cellSizeX: int
    const cellSizeY: int
    /** Stored by the constructor and used by nothing else. */
    const seed: Option<int>
    var cells: seq<seq<Cell>>
    /** The values the cells hold. */
    ghost var Contents: Cells

    /** The construction parameters as a value. */
    function Params(): Layout {
      Layout(xOrigin, yOrigin, numRows, numCols, cellSizeX, cellSizeY)
    }

    /** The grid is `numRows` by `numCols`, owns each cell once, and its
        cells hold `Contents`. */
    ghost predicate Valid()
      reads this, Objects(cells)
    {
      Shaped(cells, numRows, numCols) && Distinct(cells) && Holds(cells, Contents)
    }

    /** `Maze.__init__`: store the parameters, build the cells, open the
        entrance and the exit. A maze with rows but no columns raises
        instead (see `Grid.BuildFailsIff`), so it is excluded here. */
    constructor (xOrigin: int, yOrigin: int, numRows: int, numCols: int,
                 cellSizeX: int, cellSizeY: int, seed: Option<int>)
      requires numRows <= 0 || numCols >= 1
      ensures this.xOrigin == xOrigin && this.yOrigin == yOrigin
      ensures this.numRows == numRows && this.numCols == numCols
      ensures this.cellSizeX == cellSizeX && this.cellSizeY == cellSizeY
      ensures this.seed == seed
      ensures Valid() && fresh(Objects(cells))
      ensures Build(Params()).Ok? && Contents == Build(Params()).value
    {
      this.xOrigin := xOrigin;
      this.yOrigin := yOrigin;
      this.numRows := numRows;
      this.numCols := numCols;
      this.cellSizeX := cellSizeX;
      this.cellSizeY := cellSizeY;
      this.seed := seed;
      cells := [];
      new;
      CreateCells();
      var outcome := BreakEntranceAndExit();
      BuildFailsIff(Params());
    }

    /** `_create_cells`: append `numRows` rows of `numCols` new cells, row
        `i`, column `j` placed at (j * cellSizeX + xOrigin, i * cellSizeY + yOrigin). */
    method CreateCells()
      modifies this
      ensures Valid() && fresh(Objects(cells))
      ensures Contents == Grid.CreateCells(Params())
    {
      var grid: seq<seq<Cell>> := [];
      ghost var built: Cells := [];
      var i := 0;
      while i < numRows
        invariant 0 <= i <= Span(numRows)
        invariant Shaped(grid, i, numCols)
        invariant Distinct(grid)
        invariant fresh(Objects(grid))
        invariant built == CreateRows(Params(), i)
        invariant Holds(grid, built)
      {
        var row := NewRow(i, grid);
        ghost var line := CreateRow(Params(), i, Span(numCols));
        AppendRow(grid, row);
        assert Shaped(grid + [row], i + 1, numCols) by {
          forall a | 0 <= a < |grid| + 1 ensures |(grid + [row])[a]| == Span(numCols) {
            if a < |grid| {
              assert (grid + [row])[a] == grid[a];
            }
          }
        }
        assert Holds(grid + [row], built + [line]) by {
          forall a, b | 0 <= a < |grid| + 1 && 0 <= b < |(grid + [row])[a]|
            ensures (grid + [row])[a][b].Value() == (built + [line])[a][b]
          {
            if a < |grid| {
              assert (grid + [row])[a][b] == grid[a][b];
            }
          }
        }
        grid := grid + [row];
        built := built + [line];
        i := i + 1;
      }
      cells := grid;
      Contents := built;
    }

    /** The inner loop of `_create_cells` for row `i`: `numCols` new cells,
        column `j` placed at (j * cellSizeX + xOrigin, i * cellSizeY + yOrigin). */
    method NewRow(i: int, grid: seq<seq<Cell>>) returns (row: seq<Cell>)
      ensures |row| == Span(numCols)
      ensures forall k :: 0 <= k < |row| ==> fresh(row[k]) && row[k] !in Objects(grid)
      ensures forall k, k' :: 0 <= k < k' < |row| ==> row[k] != row[k']
      ensures forall k :: 0 <= k < |row| ==> row[k].Value() == CreateRow(Params(), i, |row|)[k]
    {
      row := [];
      var j := 0;
      while j < numCols
        invariant 0 <= j <= Span(numCols) && |row| == j
        invariant forall k :: 0 <= k < j ==> fresh(row[k]) && row[k] !in Objects(grid)
        invariant forall k, k' :: 0 <= k < k' < j ==> row[k] != row[k']
        invariant forall k :: 0 <= k < j ==> row[k].Value() == CreateRow(Params(), i, j)[k]
      {
        var c := new Cell(j * cellSizeX + xOrigin, i * cellSizeY + yOrigin, cellSizeX, cellSizeY);
        row := row + [c];
        j := j + 1;
      }
    }

    /** `_break_entrance_and_exit`: on a non-empty grid, remove the top wall
        of cell (0, 0) and then the bottom wall of cell (numRows - 1,
        numCols - 1); a grid whose first row is empty raises an index error
        before anything changes. */
    method BreakEntranceAndExit() returns (outcome: Outcome)
      requires Valid()
      modifies this, Objects(cells)
      ensures Valid() && cells == old(cells)
      ensures var expected := Grid.BreakEntranceAndExit(old(Contents), numRows, numCols);
        && (expected.Ok? ==> outcome == Pass && Contents == expected.value)
        && (expected.Err? ==> outcome == Fail(expected.error) && Contents == old(Contents))
    {
      if |cells| > 0 {
        if |cells[0]| == 0 {
          return Fail(IndexError);
        }
        var entrance := cells[0][0];
        entrance.topWall := false;
        var exit := cells[numRows - 1][numCols - 1];
        exit.bottomWall := false;
        Contents := Grid.BreakEntranceAndExit(Contents, numRows, numCols).value;
        forall i, j | 0 <= i < |cells| && 0 <= j < |cells[i]|
          ensures cells[i][j].Value() == Contents[i][j]
        {
          BreakOpensOnlyEntranceAndExit(old(Contents), numRows, numCols, i, j);
        }
      }
      return Pass;
    }
  }

  /** The assertions of the first test of the test suite: a 10-row,
      15-column maze has 10 rows and its first row has 15 cells. (The test
      as written passes no window, so drawing fails before it gets there.) */
  method TestMazeCreateCells() returns (rows: int, firstRow: int)
    ensures rows == 10 && firstRow == 15
  {
    var m := new Maze(0, 0, 10, 15, 10, 10, None);
    rows := |m.cells|;
    firstRow := |m.cells[0]|;
  }

  /** The assertions of the second test: in a 10-row, 15-column maze the
      entrance has lost its top wall and the exit its bottom wall. */
  method TestMazeBreakEntranceAndExit() returns (entranceTop: bool, exitBottom: bool)
    ensures !entranceTop && !exitBottom
  {
    var m := new Maze(0, 0, 10, 15, 10, 10, None);
    EntranceAndExitOpen(m.Params());
    entranceTop := m.cells[0][0].topWall;
    exitBottom := m.cells[9][14].bottomWall;
  }
}
