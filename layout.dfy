/**
 * The brick-layout generator (createBricks): six procedural shapes on the
 * grid, a random draw per brick choosing bomb, spring or plain, and bombs
 * kept apart by the no-adjacent-bomb rule.
 *
 * Math.random() is replaced by a stream of integer draws, `draws(k)` being
 * the k-th call's value scaled to [0, 100): a draw d stands for
 * rand = d / 100, so `rand < 0.15` is `d < 15` and `rand < 0.25` is `d < 25`.
 */
module Layout {
  import opened Grid

  /** How many procedural layouts there are. */
  const LayoutCount := 6

  /** layoutIndex: the layout a level uses; levels cycle through the six. */
  function LayoutIndex(level: int): (i: nat)
    requires level >= 1
    ensures i < LayoutCount
    ensures (level - 1 - i) % LayoutCount == 0
  {
    (level - 1) % LayoutCount
  }

  /** How many rows the outer loop of each layout runs over. */
  function Rows(layout: nat): nat
    requires layout < LayoutCount
  {
    [5, 8, 6, 9, 7, 7][layout]
  }

  /** How many bricks each layout places. */
  function BrickCount(layout: nat): nat
    requires layout < LayoutCount
  {
    if layout == 0 then 50
    else if layout == 1 then 52
    else if layout == 2 then 30
    else if layout == 3 then 41
    else if layout == 4 then 38
    else 22
  }

  /** The diamond's distance of a row from its centre row 4. */
  function Distance(row: int): nat {
    if row < 4 then 4 - row else row - 4
  }

  /** The bound of the inner (column) loop in a row. */
  function RowWidth(layout: nat, row: int): (w: int)
    requires layout < LayoutCount && 0 <= row < Rows(layout)
    ensures 1 <= w <= 10
  {
    if layout == 1 then 10 - row          // pyramid
    else if layout == 3 then 9 - 2 * Distance(row)  // diamond
    else 10
  }

  /** What the layout adds to the column to get gridX. */
  function RowOffset(layout: nat, row: int): int
    requires layout < LayoutCount
  {
    if layout == 1 then row
    else if layout == 3 then Distance(row)
    else 0
  }

  /** The filter that the checkerboard, walls and cross layouts put around a cell. */
  predicate InShape(layout: nat, row: int, col: int)
    requires layout < LayoutCount
  {
    if layout == 2 then (row + col) % 2 == 0            // checkerboard
    else if layout == 4 then col == 0 || col == 9 || row < 3   // walls
    else if layout == 5 then col == 4 || col == 5 || row == 3  // cross
    else true
  }

  /** Whether the layout applies the no-adjacent-bomb rule (the checkerboard does not). */
  predicate Checked(layout: nat) {
    layout != 2
  }

  /** The shape of each layout, stated directly on grid coordinates. */
  predicate InLayout(layout: nat, c: Cell)
    requires layout < LayoutCount
  {
    var (x, y) := c;
    if layout == 0 then 0 <= y < 5 && 0 <= x < 10
    else if layout == 1 then 0 <= y < 8 && y <= x < 10
    else if layout == 2 then 0 <= y < 6 && 0 <= x < 10 && (x + y) % 2 == 0
    else if layout == 3 then 0 <= y < 9 && Distance(y) <= x < 9 - Distance(y)
    else if layout == 4 then 0 <= y < 7 && 0 <= x < 10 && (x == 0 || x == 9 || y < 3)
    else 0 <= y < 7 && 0 <= x < 10 && (x == 4 || x == 5 || y == 3)
  }

  /** The cells the inner loop of a row visits from column col on, in order. */
  function RowCells(layout: nat, row: int, col: nat): seq<Cell>
    requires layout < LayoutCount && 0 <= row < Rows(layout)
    decreases RowWidth(layout, row) - col
  {
    if col >= RowWidth(layout, row) then []
    else
      (if InShape(layout, row, col) then [(col + RowOffset(layout, row), row)] else [])
      + RowCells(layout, row, col + 1)
  }

  /** The cells the loops visit from a row on, in order. */
  function CellsFrom(layout: nat, row: nat): seq<Cell>
    requires layout < LayoutCount
    decreases Rows(layout) - row
  {
    if row >= Rows(layout) then []
    else RowCells(layout, row, 0) + CellsFrom(layout, row + 1)
  }

  /** Every cell a layout fills, in the order the loops visit them. */
  function ShapeCells(layout: nat): seq<Cell>
    requires layout < LayoutCount
  {
    CellsFrom(layout, 0)
  }

  /** Whether a visited cell with its row and column is on the layout's grid. */
  predicate OnGrid(layout: nat, c: Cell)
    requires layout < LayoutCount
  {
    0 <= c.1 < Rows(layout) && InRow(layout, c.1, 0, c)
  }

  /** Row-major order: a comes before b. */
  predicate Before(a: Cell, b: Cell) {
    a.1 < b.1 || (a.1 == b.1 && a.0 < b.0)
  }

  ghost predicate Ordered(s: seq<Cell>) {
    forall i, j :: 0 <= i < j < |s| ==> Before(s[i], s[j])
  }

  ghost predicate Distinct(s: seq<Cell>) {
    forall i, j :: 0 <= i < j < |s| ==> s[i] != s[j]
  }

  // ----- generation, as a fold over the visited cells -----

  /** The generator's state: the bricks placed and the bomb positions recorded. */
  datatype Board = Board(bricks: map<Cell, Kind>, bombs: set<Cell>)

  /** The kind a draw gives the brick at c, given the bombs recorded so far. */
  function Pick(bombs: set<Cell>, c: Cell, draw: int, checked: bool): Kind {
    if draw < 15 && (!checked || !BombAround(bombs, c)) then Bomb
    else if draw < 25 then Spring
    else Plain
  }

  /** One loop body: place a brick at c from one draw, recording it if it is a bomb and the layout checks. */
  function Place(b: Board, c: Cell, draw: int, checked: bool): Board {
    var kind := Pick(b.bombs, c, draw, checked);
    Board(b.bricks[c := kind], if checked && kind == Bomb then b.bombs + {c} else b.bombs)
  }

  /** Placing bricks at the cells in order, the first with draw k and each next one with the next draw. */
  function Fill(cells: seq<Cell>, draws: nat -> int, k: nat, b: Board, checked: bool): Board
    decreases |cells|
  {
    if cells == [] then b
    else Fill(cells[1..], draws, k + 1, Place(b, cells[0], draws(k), checked), checked)
  }

  /** The bricks a layout gets from a stream of draws. */
  function Generate(layout: nat, draws: nat -> int): map<Cell, Kind>
    requires layout < LayoutCount
  {
    Fill(ShapeCells(layout), draws, 0, Board(map[], {}), Checked(layout)).bricks
  }

  /** No two bombs among the bricks are adjacent. */
  ghost predicate NoAdjacentBombs(bricks: map<Cell, Kind>) {
    forall a, b :: a in bricks && b in bricks && bricks[a] == Bomb && bricks[b] == Bomb ==> !Adjacent(a, b)
  }

  /** What a brick's kind says about the draw it was made from. */
  predicate DrawAgrees(k: Kind, draw: int, checked: bool) {
    && (k == Plain <==> draw >= 25)
    && (k == Bomb ==> draw < 15)
    && (!checked ==> (k == Bomb <==> draw < 15))
  }

  /**
   * createBricks: the nested row and column loops of the layout the index
   * selects, one draw per brick placed, bombs recorded in bombPositions.
   */
  method CreateBricks(layout: nat, draws: nat -> int) returns (bricks: map<Cell, Kind>)
    requires layout < LayoutCount
    ensures bricks == Generate(layout, draws)
    ensures forall c :: c in bricks <==> InLayout(layout, c)
    ensures Checked(layout) ==> NoAdjacentBombs(bricks)
  {
    var checked := Checked(layout);
    ghost var goal := Scan(layout, 0, 0, draws, 0, Board(map[], {}), checked);
    var bombPositions: set<Cell> := {};
    bricks := map[];
    var k := 0;
    var row := 0;
    while row < Rows(layout)
      invariant 0 <= row <= Rows(layout)
      invariant Scan(layout, row, 0, draws, k, Board(bricks, bombPositions), checked) == goal
    {
      bricks, bombPositions, k := FillRow(layout, row, draws, checked, bricks, bombPositions, k);
      row := row + 1;
    }
    ScanIsGenerate(layout, draws);
    GenerateShape(layout, draws);
    if checked {
      GenerateNoAdjacentBombs(layout, draws);
    }
  }

  /** The inner loop: one row of a layout, from column 0 to the row's width. */
  method FillRow(layout: nat, row: nat, draws: nat -> int, checked: bool,
                 bricks: map<Cell, Kind>, bombPositions: set<Cell>, k: nat)
    returns (bricks': map<Cell, Kind>, bombPositions': set<Cell>, k': nat)
    requires layout < LayoutCount && row < Rows(layout)
    ensures Scan(layout, row + 1, 0, draws, k', Board(bricks', bombPositions'), checked)
         == Scan(layout, row, 0, draws, k, Board(bricks, bombPositions), checked)
  {
    bricks', bombPositions', k' := bricks, bombPositions, k;
    var col := 0;
    while col < RowWidth(layout, row)
      invariant 0 <= col <= RowWidth(layout, row)
      invariant Scan(layout, row, col, draws, k', Board(bricks', bombPositions'), checked)
             == Scan(layout, row, 0, draws, k, Board(bricks, bombPositions), checked)
    {
      if InShape(layout, row, col) {
        bricks', bombPositions' := PlaceAt(layout, row, col, draws, k', checked, bricks', bombPositions');
        k' := k' + 1;
      } else {
        RestSkip(layout, row, col);
      }
      col := col + 1;
    }
    if row + 1 < Rows(layout) {
      RestEnd(layout, row);
      RestStart(layout, row + 1);
    } else {
      RestNone(layout, row);
    }
  }

  /** One in-shape cell: its gridX from the layout's offset, one draw, one brick. */
  method PlaceAt(layout: nat, row: nat, col: nat, draws: nat -> int, k: nat, checked: bool,
                 bricks: map<Cell, Kind>, bombPositions: set<Cell>)
    returns (bricks': map<Cell, Kind>, bombPositions': set<Cell>)
    requires layout < LayoutCount && row < Rows(layout) && col < RowWidth(layout, row) && InShape(layout, row, col)
    ensures Scan(layout, row, col + 1, draws, k + 1, Board(bricks', bombPositions'), checked)
         == Scan(layout, row, col, draws, k, Board(bricks, bombPositions), checked)
  {
    var gridX := col + RowOffset(layout, row);
    var rand := draws(k);
    bricks', bombPositions' := PlaceBrick(bricks, bombPositions, (gridX, row), rand, checked);
    ScanPlace(layout, row, col, draws, k, Board(bricks, bombPositions), Board(bricks', bombPositions'), checked);
  }

  /**
   * The body the six layouts share: a bomb if the draw is below 15 and (where
   * the layout checks) no recorded bomb is adjacent, else a spring below 25,
   * else a plain brick.
   */
  method PlaceBrick(bricks: map<Cell, Kind>, bombPositions: set<Cell>, c: Cell, rand: int, checked: bool)
    returns (bricks': map<Cell, Kind>, bombPositions': set<Cell>)
    ensures Board(bricks', bombPositions') == Place(Board(bricks, bombPositions), c, rand, checked)
  {
    var blocked := false;
    if checked && rand < 15 {
      blocked := HasAdjacentBomb(bombPositions, c.0, c.1);
    }
    bombPositions' := bombPositions;
    if rand < 15 && !blocked {
      bricks' := bricks[c := Bomb];
      if checked {
        bombPositions' := bombPositions + {c};
      }
    } else if rand < 25 {
      bricks' := bricks[c := Spring];
    } else {
      bricks' := bricks[c := Plain];
    }
  }

  /** What the loops produce from row and column col on, with draw k next: the cells still to visit, placed in order. */
  function Scan(layout: nat, row: nat, col: nat, draws: nat -> int, k: nat, b: Board, checked: bool): Board
    requires layout < LayoutCount
  {
    if row < Rows(layout) then Fill(Rest(layout, row, col), draws, k, b, checked) else b
  }

  /** What the loops still have to visit in a row from column col on, and in the rows after it. */
  function Rest(layout: nat, row: int, col: nat): seq<Cell>
    requires layout < LayoutCount && 0 <= row < Rows(layout)
  {
    RowCells(layout, row, col) + CellsFrom(layout, row + 1)
  }

  /** Placing the brick at an in-shape cell with draw k leaves the rest to draw k + 1 on. */
  lemma ScanPlace(layout: nat, row: nat, col: nat, draws: nat -> int, k: nat, b: Board, b': Board, checked: bool)
    requires layout < LayoutCount && row < Rows(layout) && col < RowWidth(layout, row) && InShape(layout, row, col)
    requires b' == Place(b, (col + RowOffset(layout, row), row), draws(k), checked)
    ensures Scan(layout, row, col + 1, draws, k + 1, b', checked) == Scan(layout, row, col, draws, k, b, checked)
  {
    RestTake(layout, row, col);
    FillFirst((col + RowOffset(layout, row), row), Rest(layout, row, col + 1), draws, k, b, checked);
  }

  lemma RestStart(layout: nat, row: nat)
    requires layout < LayoutCount && row < Rows(layout)
    ensures CellsFrom(layout, row) == Rest(layout, row, 0)
  {
  }

  /** At the start of a row the loops have all the cells from that row on still to place. */
  lemma ScanRow(layout: nat, row: nat, draws: nat -> int, k: nat, b: Board, checked: bool)
    requires layout < LayoutCount && row < Rows(layout)
    ensures Scan(layout, row, 0, draws, k, b, checked) == Fill(CellsFrom(layout, row), draws, k, b, checked)
  {
    RestStart(layout, row);
  }

  /** An in-shape cell is the next one the loops place. */
  lemma RestTake(layout: nat, row: int, col: nat)
    requires layout < LayoutCount && 0 <= row < Rows(layout) && col < RowWidth(layout, row)
    requires InShape(layout, row, col)
    ensures Rest(layout, row, col) == [(col + RowOffset(layout, row), row)] + Rest(layout, row, col + 1)
  {
  }

  /** A cell outside the shape is skipped without a draw. */
  lemma RestSkip(layout: nat, row: int, col: nat)
    requires layout < LayoutCount && 0 <= row < Rows(layout) && col < RowWidth(layout, row)
    requires !InShape(layout, row, col)
    ensures Rest(layout, row, col) == Rest(layout, row, col + 1)
  {
  }

  /** At the end of a row the loops go on with the next one. */
  lemma RestEnd(layout: nat, row: nat)
    requires layout < LayoutCount && row < Rows(layout)
    ensures Rest(layout, row, RowWidth(layout, row)) == CellsFrom(layout, row + 1)
  {
    assert RowCells(layout, row, RowWidth(layout, row)) == [];
  }

  /** After the last row nothing is left. */
  lemma RestNone(layout: nat, row: nat)
    requires layout < LayoutCount && row + 1 == Rows(layout)
    ensures Rest(layout, row, RowWidth(layout, row)) == []
  {
    RestEnd(layout, row);
  }

  /** Placing the first of the cells left with draw k leaves the rest to draw k + 1 on. */
  lemma FillFirst(c: Cell, cells: seq<Cell>, draws: nat -> int, k: nat, b: Board, checked: bool)
    ensures Fill([c] + cells, draws, k, b, checked) == Fill(cells, draws, k + 1, Place(b, c, draws(k), checked), checked)
  {
    assert ([c] + cells)[1..] == cells;
  }

  /** The loops, run from the start, build the generated layout. */
  lemma ScanIsGenerate(layout: nat, draws: nat -> int)
    requires layout < LayoutCount
    ensures Scan(layout, 0, 0, draws, 0, Board(map[], {}), Checked(layout)).bricks == Generate(layout, draws)
  {
    ScanRow(layout, 0, draws, 0, Board(map[], {}), Checked(layout));
  }

  // ----- the layouts' shapes -----

  /** layoutIndex maps levels 1..6 to layouts 0..5 and repeats every six levels. */
  lemma LayoutCycle(level: int)
    requires level >= 1
    ensures LayoutIndex(level + LayoutCount) == LayoutIndex(level)
    ensures level <= LayoutCount ==> LayoutIndex(level) == level - 1
  {
  }

  lemma {:induction false} OrderedAppend(a: seq<Cell>, b: seq<Cell>)
    requires Ordered(a) && Ordered(b)
    requires forall x, y :: x in a && y in b ==> Before(x, y)
    ensures Ordered(a + b)
  {
    forall i, j | 0 <= i < j < |a + b|
      ensures Before((a + b)[i], (a + b)[j])
    {
      if j < |a| {
        assert (a + b)[i] == a[i] && (a + b)[j] == a[j];
      } else if i < |a| {
        assert (a + b)[i] == a[i] && (a + b)[j] == b[j - |a|];
      } else {
        assert (a + b)[i] == b[i - |a|] && (a + b)[j] == b[j - |a|];
      }
    }
  }

  /** A cell the inner loop of a row visits from column col on. */
  predicate InRow(layout: nat, row: int, col: int, c: Cell)
    requires layout < LayoutCount && 0 <= row < Rows(layout)
  {
    c.1 == row
    && col <= c.0 - RowOffset(layout, row) < RowWidth(layout, row)
    && InShape(layout, row, c.0 - RowOffset(layout, row))
  }

  lemma {:induction false} RowCellsMember(layout: nat, row: int, col: nat)
    requires layout < LayoutCount && 0 <= row < Rows(layout)
    ensures forall c :: c in RowCells(layout, row, col) <==> InRow(layout, row, col, c)
    decreases RowWidth(layout, row) - col
  {
    if col < RowWidth(layout, row) {
      RowCellsMember(layout, row, col + 1);
    }
  }

  lemma {:induction false} RowCellsOrdered(layout: nat, row: int, col: nat)
    requires layout < LayoutCount && 0 <= row < Rows(layout)
    ensures Ordered(RowCells(layout, row, col))
    decreases RowWidth(layout, row) - col
  {
    if col < RowWidth(layout, row) {
      RowCellsOrdered(layout, row, col + 1);
      RowCellsRight(layout, row, col + 1);
      var x := (col + RowOffset(layout, row), row);
      var head := if InShape(layout, row, col) then [x] else [];
      var tail := RowCells(layout, row, col + 1);
      assert RowCells(layout, row, col) == head + tail;
      forall y | y in tail ensures Before(x, y) {
      }
      OrderedAppend(head, tail);
    }
  }

  /** The cells of a row from column col on lie in that row, right of column col. */
  lemma {:induction false} RowCellsRight(layout: nat, row: int, col: nat)
    requires layout < LayoutCount && 0 <= row < Rows(layout)
    ensures forall c :: c in RowCells(layout, row, col) ==> c.1 == row && c.0 >= col + RowOffset(layout, row)
    decreases RowWidth(layout, row) - col
  {
    if col < RowWidth(layout, row) {
      RowCellsRight(layout, row, col + 1);
    }
  }

  lemma {:induction false} CellsFromMember(layout: nat, row: nat)
    requires layout < LayoutCount
    ensures forall c :: c in CellsFrom(layout, row) <==> row <= c.1 && OnGrid(layout, c)
    decreases Rows(layout) - row
  {
    if row < Rows(layout) {
      CellsFromMember(layout, row + 1);
      RowCellsMember(layout, row, 0);
      forall c ensures c in CellsFrom(layout, row) <==> row <= c.1 && OnGrid(layout, c) {
        assert c in CellsFrom(layout, row) <==> c in RowCells(layout, row, 0) || c in CellsFrom(layout, row + 1);
      }
    }
  }

  lemma {:induction false} CellsFromOrdered(layout: nat, row: nat)
    requires layout < LayoutCount
    ensures Ordered(CellsFrom(layout, row))
    decreases Rows(layout) - row
  {
    if row < Rows(layout) {
      CellsFromOrdered(layout, row + 1);
      CellsFromMember(layout, row + 1);
      RowCellsOrdered(layout, row, 0);
      RowCellsMember(layout, row, 0);
      var head, tail := RowCells(layout, row, 0), CellsFrom(layout, row + 1);
      forall x, y | x in head && y in tail ensures Before(x, y) {
        assert InRow(layout, row, 0, x);
      }
      OrderedAppend(head, tail);
    }
  }

  /** The loops' row, column and offset arithmetic yields exactly the shape on the grid. */
  lemma OnGridIsInLayout(layout: nat, c: Cell)
    requires layout < LayoutCount
    ensures OnGrid(layout, c) <==> InLayout(layout, c)
  {
    if layout == 0 {
      OnGridFull(layout, c);
    } else if layout == 1 {
      OnGridPyramid(layout, c);
    } else if layout == 2 {
      OnGridCheckerboard(layout, c);
    } else if layout == 3 {
      OnGridDiamond(layout, c);
    } else if layout == 4 {
      OnGridWalls(layout, c);
    } else {
      OnGridCross(layout, c);
    }
  }

  // One lemma per layout, so that each is proved on its own.
  lemma OnGridFull(layout: nat, c: Cell)
    requires layout == 0
    ensures OnGrid(layout, c) <==> InLayout(layout, c)
  {
  }

  lemma OnGridPyramid(layout: nat, c: Cell)
    requires layout == 1
    ensures OnGrid(layout, c) <==> InLayout(layout, c)
  {
  }

  lemma OnGridCheckerboard(layout: nat, c: Cell)
    requires layout == 2
    ensures OnGrid(layout, c) <==> InLayout(layout, c)
  {
    assert RowOffset(layout, c.1) == 0;
    assert c.1 + (c.0 - 0) == c.0 + c.1;
  }

  lemma OnGridDiamond(layout: nat, c: Cell)
    requires layout == 3
    ensures OnGrid(layout, c) <==> InLayout(layout, c)
  {
  }

  lemma OnGridWalls(layout: nat, c: Cell)
    requires layout == 4
    ensures OnGrid(layout, c) <==> InLayout(layout, c)
  {
  }

  lemma OnGridCross(layout: nat, c: Cell)
    requires layout == 5
    ensures OnGrid(layout, c) <==> InLayout(layout, c)
  {
  }

  /** A layout's cells are exactly its shape, and each is visited once. */
  lemma ShapeCellsFacts(layout: nat)
    requires layout < LayoutCount
    ensures forall c :: c in ShapeCells(layout) <==> InLayout(layout, c)
    ensures Distinct(ShapeCells(layout))
  {
    CellsFromMember(layout, 0);
    CellsFromOrdered(layout, 0);
    forall c ensures OnGrid(layout, c) <==> InLayout(layout, c) {
      OnGridIsInLayout(layout, c);
    }
  }

  /** How many cells the inner loop of a row fills from column col on. */
  function CountFromCol(layout: nat, row: int, col: int): int
    requires layout < LayoutCount && 0 <= row < Rows(layout)
  {
    if layout == 2 then (10 - col + (if (row + col) % 2 == 0 then 1 else 0)) / 2
    else if layout == 4 && row >= 3 then (if col <= 0 then 1 else 0) + (if col <= 9 then 1 else 0)
    else if layout == 5 && row != 3 then (if col <= 4 then 1 else 0) + (if col <= 5 then 1 else 0)
    else RowWidth(layout, row) - col
  }

  /** How many cells the loops fill from a row on. */
  function CountFromRow(layout: nat, row: nat): int
    requires layout < LayoutCount
    decreases Rows(layout) - row
  {
    if row >= Rows(layout) then 0 else CountFromCol(layout, row, 0) + CountFromRow(layout, row + 1)
  }

  lemma {:induction false} RowCellsCount(layout: nat, row: int, col: nat)
    requires layout < LayoutCount && 0 <= row < Rows(layout) && col <= RowWidth(layout, row)
    ensures |RowCells(layout, row, col)| == CountFromCol(layout, row, col)
    decreases RowWidth(layout, row) - col
  {
    if col < RowWidth(layout, row) {
      RowCellsCount(layout, row, col + 1);
      CountFromColStep(layout, row, col);
    }
  }

  /** One column of the inner loop adds one to the count exactly when it is in the shape. */
  lemma CountFromColStep(layout: nat, row: int, col: nat)
    requires layout < LayoutCount && 0 <= row < Rows(layout) && col < RowWidth(layout, row)
    ensures CountFromCol(layout, row, col) == (if InShape(layout, row, col) then 1 else 0) + CountFromCol(layout, row, col + 1)
  {
    if layout == 2 {
      if (row + col) % 2 == 0 {
        assert (row + col + 1) % 2 == 1;
        assert (11 - col) / 2 == (9 - col) / 2 + 1;
      } else {
        assert (row + col + 1) % 2 == 0;
      }
    }
  }

  lemma {:induction false} CellsFromCount(layout: nat, row: nat)
    requires layout < LayoutCount
    ensures |CellsFrom(layout, row)| == CountFromRow(layout, row)
    decreases Rows(layout) - row
  {
    if row < Rows(layout) {
      RowCellsCount(layout, row, 0);
      CellsFromCount(layout, row + 1);
    }
  }

  /** The six layouts visit 50, 52, 30, 41, 38 and 22 cells. */
  lemma ShapeCellsCount(layout: nat)
    requires layout < LayoutCount
    ensures |ShapeCells(layout)| == BrickCount(layout)
  {
    CellsFromCount(layout, 0);
    CountFromRowTotal(layout);
  }

  /** The row counts add up to each layout's brick count. */
  lemma CountFromRowTotal(layout: nat)
    requires layout < LayoutCount
    ensures CountFromRow(layout, 0) == BrickCount(layout)
  {
    if layout == 0 { assert CountFromRow(0, 0) == 50; }
    else if layout == 1 { assert CountFromRow(1, 0) == 52; }
    else if layout == 2 { assert CountFromRow(2, 0) == 30; }
    else if layout == 3 { assert CountFromRow(3, 0) == 41; }
    else if layout == 4 { assert CountFromRow(4, 0) == 38; }
    else { assert CountFromRow(5, 0) == 22; }
  }

  // ----- what generation guarantees -----

  /** Placing fills exactly the visited cells, on top of what was there. */
  lemma {:induction false} FillKeys(cells: seq<Cell>, draws: nat -> int, k: nat, b: Board, checked: bool)
    ensures forall c :: c in Fill(cells, draws, k, b, checked).bricks <==> c in b.bricks || c in cells
    decreases |cells|
  {
    if cells != [] {
      FillKeys(cells[1..], draws, k + 1, Place(b, cells[0], draws(k), checked), checked);
      assert forall c :: c in cells <==> c == cells[0] || c in cells[1..];
    }
  }

  /** Over distinct fresh cells, placing adds one brick per cell. */
  lemma {:induction false} FillSize(cells: seq<Cell>, draws: nat -> int, k: nat, b: Board, checked: bool)
    requires Distinct(cells)
    requires forall i :: 0 <= i < |cells| ==> cells[i] !in b.bricks
    ensures |Fill(cells, draws, k, b, checked).bricks| == |b.bricks| + |cells|
    decreases |cells|
  {
    if cells != [] {
      var b' := Place(b, cells[0], draws(k), checked);
      assert |b'.bricks| == |b.bricks| + 1;
      assert forall i :: 0 <= i < |cells[1..]| ==> cells[1..][i] == cells[i + 1] && cells[i + 1] != cells[0];
      FillSize(cells[1..], draws, k + 1, b', checked);
    }
  }

  /** Every bomb on the board is in bombPositions. */
  ghost predicate BombsRecorded(b: Board) {
    forall c :: c in b.bricks && b.bricks[c] == Bomb ==> c in b.bombs
  }

  /** Every recorded position holds a bomb. */
  ghost predicate RecordedAreBombs(b: Board) {
    forall c :: c in b.bombs ==> c in b.bricks && b.bricks[c] == Bomb
  }

  /** Some bomb among the bricks is adjacent to c. */
  ghost predicate BombNextTo(bricks: map<Cell, Kind>, c: Cell) {
    exists a :: a in bricks && bricks[a] == Bomb && Adjacent(a, c)
  }

  /** One checked placement keeps the recorded bombs apart and records every bomb. */
  lemma PlaceKeepsBombsApart(b: Board, c: Cell, draw: int)
    requires BombsRecorded(b) && Separated(b.bombs)
    ensures BombsRecorded(Place(b, c, draw, true)) && Separated(Place(b, c, draw, true).bombs)
  {
    BombAroundIff(b.bombs, c);
  }

  lemma {:induction false} FillKeepsBombsApart(cells: seq<Cell>, draws: nat -> int, k: nat, b: Board)
    requires BombsRecorded(b) && Separated(b.bombs)
    ensures BombsRecorded(Fill(cells, draws, k, b, true)) && Separated(Fill(cells, draws, k, b, true).bombs)
    decreases |cells|
  {
    if cells != [] {
      PlaceKeepsBombsApart(b, cells[0], draws(k));
      FillKeepsBombsApart(cells[1..], draws, k + 1, Place(b, cells[0], draws(k), true));
    }
  }

  /** Over distinct fresh cells, placing keeps every brick that was already there. */
  lemma {:induction false} FillKeeps(cells: seq<Cell>, draws: nat -> int, k: nat, b: Board, checked: bool)
    requires Distinct(cells)
    requires forall i :: 0 <= i < |cells| ==> cells[i] !in b.bricks
    ensures forall c :: c in b.bricks ==>
      c in Fill(cells, draws, k, b, checked).bricks && Fill(cells, draws, k, b, checked).bricks[c] == b.bricks[c]
    decreases |cells|
  {
    if cells != [] {
      var b' := Place(b, cells[0], draws(k), checked);
      assert forall i :: 0 <= i < |cells[1..]| ==> cells[1..][i] == cells[i + 1] && cells[i + 1] != cells[0];
      FillKeeps(cells[1..], draws, k + 1, b', checked);
    }
  }

  /** One placement gives c a kind that agrees with its draw; a checked draw below 15 that is not a bomb was blocked by one. */
  lemma PlaceKind(b: Board, c: Cell, draw: int, checked: bool)
    requires checked ==> RecordedAreBombs(b)
    requires c !in b.bricks
    ensures c in Place(b, c, draw, checked).bricks
    ensures DrawAgrees(Place(b, c, draw, checked).bricks[c], draw, checked)
    ensures checked && draw < 15 && Place(b, c, draw, checked).bricks[c] != Bomb ==>
      BombNextTo(Place(b, c, draw, checked).bricks, c)
  {
    var r := Place(b, c, draw, checked).bricks;
    if checked && draw < 15 && r[c] != Bomb {
      BombAroundIff(b.bombs, c);
      var a :| a in b.bombs && Adjacent(a, c);
      assert a in r && r[a] == Bomb;
    }
  }

  /**
   * Over distinct fresh cells, placing gives the i-th cell a kind that
   * agrees with draw k + i; in a checked layout a draw below 15 that did
   * not make a bomb had a bomb next to it.
   */
  lemma {:induction false} FillKindAt(cells: seq<Cell>, draws: nat -> int, k: nat, b: Board, checked: bool, i: nat)
    requires Distinct(cells)
    requires forall j :: 0 <= j < |cells| ==> cells[j] !in b.bricks
    requires checked ==> RecordedAreBombs(b)
    requires i < |cells|
    ensures cells[i] in Fill(cells, draws, k, b, checked).bricks
    ensures DrawAgrees(Fill(cells, draws, k, b, checked).bricks[cells[i]], draws(k + i), checked)
    ensures checked && draws(k + i) < 15 && Fill(cells, draws, k, b, checked).bricks[cells[i]] != Bomb ==>
      BombNextTo(Fill(cells, draws, k, b, checked).bricks, cells[i])
    decreases |cells|
  {
    if i == 0 {
      FillKindFirst(cells, draws, k, b, checked);
    } else {
      var b' := Place(b, cells[0], draws(k), checked);
      assert Fill(cells, draws, k, b, checked) == Fill(cells[1..], draws, k + 1, b', checked);
      assert forall j :: 0 <= j < |cells[1..]| ==> cells[1..][j] == cells[j + 1] && cells[j + 1] != cells[0];
      FillKindAt(cells[1..], draws, k + 1, b', checked, i - 1);
      assert cells[i] == cells[1..][i - 1] && k + i == (k + 1) + (i - 1);
    }
  }

  /** The first cell: its brick is placed from draw k and nothing after it changes it. */
  lemma FillKindFirst(cells: seq<Cell>, draws: nat -> int, k: nat, b: Board, checked: bool)
    requires Distinct(cells)
    requires forall j :: 0 <= j < |cells| ==> cells[j] !in b.bricks
    requires checked ==> RecordedAreBombs(b)
    requires cells != []
    ensures cells[0] in Fill(cells, draws, k, b, checked).bricks
    ensures DrawAgrees(Fill(cells, draws, k, b, checked).bricks[cells[0]], draws(k), checked)
    ensures checked && draws(k) < 15 && Fill(cells, draws, k, b, checked).bricks[cells[0]] != Bomb ==>
      BombNextTo(Fill(cells, draws, k, b, checked).bricks, cells[0])
  {
    var c := cells[0];
    var b' := Place(b, c, draws(k), checked);
    var r := Fill(cells, draws, k, b, checked).bricks;
    assert r == Fill(cells[1..], draws, k + 1, b', checked).bricks;
    assert forall j :: 0 <= j < |cells[1..]| ==> cells[1..][j] == cells[j + 1] && cells[j + 1] != c;
    PlaceKind(b, c, draws(k), checked);
    FillKeeps(cells[1..], draws, k + 1, b', checked);
    if checked && draws(k) < 15 && r[c] != Bomb {
      var a :| a in b'.bricks && b'.bricks[a] == Bomb && Adjacent(a, c);
      assert a in r && r[a] == Bomb;
    }
  }

  /** A generated layout has a brick on exactly the cells of its shape. */
  lemma GenerateShape(layout: nat, draws: nat -> int)
    requires layout < LayoutCount
    ensures forall c :: c in Generate(layout, draws) <==> InLayout(layout, c)
  {
    ShapeCellsFacts(layout);
    FillKeys(ShapeCells(layout), draws, 0, Board(map[], {}), Checked(layout));
  }

  /** A generated layout has 50, 52, 30, 41, 38 or 22 bricks. */
  lemma GenerateCount(layout: nat, draws: nat -> int)
    requires layout < LayoutCount
    ensures |Generate(layout, draws)| == BrickCount(layout)
  {
    ShapeCellsFacts(layout);
    ShapeCellsCount(layout);
    FillSize(ShapeCells(layout), draws, 0, Board(map[], {}), Checked(layout));
  }

  /** In every layout but the checkerboard, no two bombs are adjacent. */
  lemma GenerateNoAdjacentBombs(layout: nat, draws: nat -> int)
    requires layout < LayoutCount && Checked(layout)
    ensures NoAdjacentBombs(Generate(layout, draws))
  {
    FillKeepsBombsApart(ShapeCells(layout), draws, 0, Board(map[], {}));
  }

  /**
   * The i-th brick of a layout agrees with the i-th draw: plain exactly when
   * the draw is 25 or more, a bomb only when it is below 15; a draw below 15
   * that did not make a bomb made a spring next to a bomb.
   */
  lemma GenerateKinds(layout: nat, draws: nat -> int, i: nat)
    requires layout < LayoutCount && i < |ShapeCells(layout)|
    ensures ShapeCells(layout)[i] in Generate(layout, draws)
    ensures DrawAgrees(Generate(layout, draws)[ShapeCells(layout)[i]], draws(i), Checked(layout))
    ensures Checked(layout) && draws(i) < 15 && Generate(layout, draws)[ShapeCells(layout)[i]] != Bomb ==>
      Generate(layout, draws)[ShapeCells(layout)[i]] == Spring
      && BombNextTo(Generate(layout, draws), ShapeCells(layout)[i])
  {
    ShapeCellsFacts(layout);
    FillKindAt(ShapeCells(layout), draws, 0, Board(map[], {}), Checked(layout), i);
  }

  /** The layout without the rule (the checkerboard) can place adjacent bombs: all draws 0 make (0,0) and (1,1) bombs. */
  lemma UncheckedAllowsAdjacentBombs(layout: nat)
    requires layout < LayoutCount && !Checked(layout)
    ensures !NoAdjacentBombs(Generate(layout, _ => 0))
  {
    var draws: nat -> int := _ => 0;
    assert layout == 2;
    assert InLayout(layout, (0, 0)) && InLayout(layout, (1, 1));
    ShapeCellsFacts(layout);
    var i :| 0 <= i < |ShapeCells(layout)| && ShapeCells(layout)[i] == (0, 0);
    var j :| 0 <= j < |ShapeCells(layout)| && ShapeCells(layout)[j] == (1, 1);
    GenerateKinds(layout, draws, i);
    GenerateKinds(layout, draws, j);
    assert Adjacent((0, 0), (1, 1));
  }
}
