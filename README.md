# Maze grid construction (mazer)

This project models how the maze solver's `Maze` object builds its grid of
cells, in `src/main.py`. `Maze.__init__` stores the origin, the row and
column counts and the cell sizes. It then calls `_create_cells`, which
appends `num_rows` rows of `num_cols` new `Cell` objects. Each new cell has
all four walls. The cell at row `i`, column `j` has its upper-left corner at
(`j * cell_size_x + x_origin`, `i * cell_size_y + y_origin`) and its
lower-right corner one cell size further. Finally `_break_entrance_and_exit`
removes the top wall of cell (0, 0) and then the bottom wall of cell
(`num_rows - 1`, `num_cols - 1`).

Two modules:

- `Grid` (grid.dfy) holds the values. `CellValue` is one cell's bounding box
  and wall flags. `CreateRow` and `CreateRows` append cells and rows the way
  the two loops do. `BreakEntranceAndExit` is the in-place update, stated on
  values. `Build` is the whole constructor. It returns `Err(IndexError)`
  where the Python code raises. The lemmas state the closed form of the
  grid, shared edges, which walls are open, and when construction fails.
- `MazeModel` (maze.dfy) holds the objects. A `Cell` class has the eight
  non-drawing fields of the Python `Cell`. A `Maze` class has the construction
  parameters and `cells: seq<seq<Cell>>`. Its ghost field `Contents` is the
  value of every cell, and `Valid()` ties the two together. `Valid()` also
  says the grid is `numRows` by `numCols` and that no cell object appears
  twice. Each method is proved against the `Grid` function it implements.
  Two client methods check the assertions of the first two tests in
  `tests/tests.py`. As written, those tests never reach their assertions:
  they pass no window, so `_animate` fails on the first cell.

Row and column counts are `int`s, as in Python: a count of zero or less
makes `range` empty (`Grid.Span`). A maze with at least one row and no
columns makes `_cells[0][0]` raise `IndexError`. `Grid.Build` returns that
error. The `Maze` constructor requires that it does not happen, because a
constructor cannot return an error. `Maze.BreakEntranceAndExit` returns
`Fail(IndexError)` and changes nothing on such a grid.

## Model

| member | source | states |
|---|---|---|
| `MazeModel.Cell.constructor` | src/main.py:43-51 | the upper-left corner is (x, y); the lower-right corner is (x + cell_size_x, y + cell_size_y); all four walls are present |
| `MazeModel.Maze.constructor` | src/main.py:84-104 | the parameters are stored; the grid is valid and made of new cells; its contents are exactly `Grid.Build` of the parameters, which succeeds whenever there are no rows or at least one column |
| `MazeModel.Maze.CreateCells` | src/main.py:108-117 | the grid is `numRows` by `numCols`, owns each new cell once, and holds exactly the values `Grid.CreateCells` gives for the parameters |
| `MazeModel.Maze.NewRow` | src/main.py:111-116 | one row has `numCols` new cells, pairwise different and not already in the grid; cell `j` holds the `j`-th value of `Grid.CreateRow` |
| `MazeModel.Maze.BreakEntranceAndExit` | src/main.py:124-129 | the grid keeps its cells and stays valid; its contents become `Grid.BreakEntranceAndExit` of the old contents; where that fails, the method reports `IndexError` and nothing changes |
| `Grid.CreateRow` | src/main.py:112-116 | the inner loop appends exactly `m` cells to a row |
| `Grid.CreateRows` | src/main.py:109-117 | the outer loop appends exactly `n` rows, and each has `num_cols` cells (none when `num_cols` is not positive) |
| `Grid.CreateRowAt` | src/main.py:112-114 | the `j`-th cell appended to row `i` is the cell for column `j` of row `i` |
| `Grid.CreateRowsAt` | src/main.py:110-117 | the `i`-th row appended is the full row `i` |
| `Grid.CreateCellsAt` | src/main.py:108-117 | the built grid is `num_rows` by `num_cols`; cell (i, j) has upper-left x = j * cell_size_x + x_origin and y = i * cell_size_y + y_origin; lower-right = upper-left + cell size; all four walls present |
| `Grid.NeighboursShareEdges` | src/main.py:44-47 | with the placement of line 113, the right edge of (i, j) equals the left edge of (i, j + 1), and the bottom edge of (i, j) equals the top edge of (i + 1, j) |
| `Grid.BreakOpensOnlyEntranceAndExit` | src/main.py:124-129 | on a grid with a cell, the update succeeds and keeps the shape; cell (i, j) keeps every field except that its top wall is removed exactly at (0, 0) and its bottom wall exactly at (rows - 1, cols - 1) |
| `Grid.BreakFailsIffFirstRowEmpty` | src/main.py:125-126 | an empty grid is returned unchanged; the update fails if and only if the grid has rows and its first row is empty |
| `Grid.BuildFailsIff` | src/main.py:108-128 | construction fails if and only if `num_rows >= 1` and `num_cols <= 0`; with no rows it yields the empty grid |
| `Grid.BuiltCell` | src/main.py:84-129 | in a constructed maze every cell (i, j) has its bounding box at its grid position and its left and right walls; its top wall is missing exactly at the entrance and its bottom wall exactly at the exit |
| `Grid.EntranceAndExitOpen` | src/main.py:124-129 | with at least one row and one column, `cells[0][0].top_wall` and `cells[rows-1][cols-1].bottom_wall` are false |
| `Grid.SingleCell` | src/main.py:126-128 | in a 1 by 1 maze the single cell has no top and no bottom wall and keeps its left and right walls |
| `MazeModel.TestMazeCreateCells` | tests/tests.py:5-10 | a 10-row, 15-column maze has 10 rows and 15 cells in its first row |
| `MazeModel.TestMazeBreakEntranceAndExit` | tests/tests.py:12-17 | in that maze the top wall of (0, 0) and the bottom wall of (9, 14) are gone |

## Left out

- Drawing and animation: `Window`, `Point`, `Line`, `Cell.draw`, `Cell.draw_move`, `Maze._animate` and the `main()` demo (src/main.py:4-40, 54-81, 120-122, 133-148) only call Tkinter and `time.sleep`. The calls to `draw()` and `_animate()` in `_create_cells` and `_break_entrance_and_exit` are modelled as doing nothing. As written, `_animate` calls `redraw()` on a `None` window when no window is given; the model does not reproduce that failure.
- The `win` parameter of `Maze` and `Cell` is dropped, because only drawing uses it. `seed` is stored and used by nothing else.
- The top-level `main.py` is an earlier drawing prototype and is not part of this model.
- `_reset_cells_visited` and a cell's `visited` flag are not in `src/main.py`, so the third test in `tests/tests.py` has nothing to model. Maze generation and path solving are not in the code either.
- `MazeModel.Maze.CreateCells` builds the rows in a local sequence and stores it in `cells` once all rows exist. The Python code appends to `self._cells` as it goes. Nothing reads the grid in between, because drawing is omitted.
- `MazeModel.Maze.constructor` requires `numRows <= 0 || numCols >= 1`, because the Python constructor raises `IndexError` otherwise. That failure is modelled by `Grid.Build` and `Grid.BuildFailsIff`.
- Cell sizes and origins are integers. The demo and the tests pass integers, and the float midpoints of `draw_move` belong to drawing.
