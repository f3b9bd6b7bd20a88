/** The brick grid: cells, the eight neighbour offsets and adjacency. */
module Grid {

  /** A brick's position on the layout grid, (gridX, gridY). */
  type Cell = (int, int)

  /** Every brick is exactly one of these. */
  datatype Kind = Bomb | Spring | Plain

  /** The eight neighbour offsets, in the order main.js lists them. */
  const Offsets: seq<(int, int)> :=
    [(-1, 0), (1, 0), (0, -1), (0, 1), (-1, -1), (1, -1), (-1, 1), (1, 1)]

  /** The cell at offset number i from c. */
  function Shift(c: Cell, i: nat): Cell
    requires i < |Offsets|
  {
    (c.0 + Offsets[i].0, c.1 + Offsets[i].1)
  }

  /** Two different cells that touch by a side or a corner. */
  predicate Adjacent(a: Cell, b: Cell) {
    a != b && -1 <= a.0 - b.0 <= 1 && -1 <= a.1 - b.1 <= 1
  }

  /** The cells reached by the first n offsets. */
  function NeighboursBelow(c: Cell, n: nat): set<Cell>
    requires n <= |Offsets|
  {
    set i | 0 <= i < n :: Shift(c, i)
  }

  /** The eight cells around c. */
  function Neighbours(c: Cell): set<Cell> {
    NeighboursBelow(c, |Offsets|)
  }

  /** One of the eight cells around c holds a recorded bomb. */
  predicate BombAround(bombs: set<Cell>, c: Cell) {
    Neighbours(c) * bombs != {}
  }

  /** hasAdjacentBomb: scans the offsets in order and stops at the first recorded bomb. */
  method HasAdjacentBomb(bombPositions: set<Cell>, gridX: int, gridY: int) returns (found: bool)
    ensures found <==> BombAround(bombPositions, (gridX, gridY))
  {
    for i := 0 to |Offsets|
      invariant forall j :: 0 <= j < i ==> Shift((gridX, gridY), j) !in bombPositions
    {
      if (gridX + Offsets[i].0, gridY + Offsets[i].1) in bombPositions {
        assert Shift((gridX, gridY), i) in bombPositions;
        BombAroundShift(bombPositions, (gridX, gridY));
        return true;
      }
    }
    BombAroundShift(bombPositions, (gridX, gridY));
    found := false;
  }

  /** No two cells of the set are adjacent. */
  ghost predicate Separated(cells: set<Cell>) {
    forall a, b :: a in cells && b in cells ==> !Adjacent(a, b)
  }

  lemma OffsetsDistinct(i: nat, j: nat)
    requires i < |Offsets| && j < |Offsets| && i != j
    ensures Offsets[i] != Offsets[j]
  {
    assert i == 0 || i == 1 || i == 2 || i == 3 || i == 4 || i == 5 || i == 6 || i == 7;
    assert j == 0 || j == 1 || j == 2 || j == 3 || j == 4 || j == 5 || j == 6 || j == 7;
  }

  /** Every offset leads to an adjacent cell. */
  lemma ShiftAdjacent(c: Cell, i: nat)
    requires i < |Offsets|
    ensures Adjacent(Shift(c, i), c)
  {
    assert i == 0 || i == 1 || i == 2 || i == 3 || i == 4 || i == 5 || i == 6 || i == 7;
  }

  /** Every adjacent cell is reached by some offset. */
  lemma AdjacentIsShift(a: Cell, c: Cell) returns (i: nat)
    requires Adjacent(a, c)
    ensures i < |Offsets| && Shift(c, i) == a
  {
    var dx, dy := a.0 - c.0, a.1 - c.1;
    if dx == -1 && dy == 0 { i := 0; }
    else if dx == 1 && dy == 0 { i := 1; }
    else if dx == 0 && dy == -1 { i := 2; }
    else if dx == 0 && dy == 1 { i := 3; }
    else if dx == -1 && dy == -1 { i := 4; }
    else if dx == 1 && dy == -1 { i := 5; }
    else if dx == -1 && dy == 1 { i := 6; }
    else { i := 7; }
  }

  /** The eight offsets are exactly the cells adjacent to c. */
  lemma NeighboursAreAdjacent(c: Cell, a: Cell)
    ensures a in Neighbours(c) <==> Adjacent(a, c)
  {
    if a in Neighbours(c) {
      var i :| 0 <= i < |Offsets| && Shift(c, i) == a;
      ShiftAdjacent(c, i);
    }
    if Adjacent(a, c) {
      var i := AdjacentIsShift(a, c);
      assert a == Shift(c, i);
    }
  }

  /** The first n offsets reach n different cells, so a cell has eight neighbours. */
  lemma {:induction false} NeighboursBelowCount(c: Cell, n: nat)
    requires n <= |Offsets|
    ensures |NeighboursBelow(c, n)| == n
  {
    if n > 0 {
      NeighboursBelowCount(c, n - 1);
      assert NeighboursBelow(c, n) == NeighboursBelow(c, n - 1) + {Shift(c, n - 1)};
      if Shift(c, n - 1) in NeighboursBelow(c, n - 1) {
        var j :| 0 <= j < n - 1 && Shift(c, j) == Shift(c, n - 1);
        OffsetsDistinct(j, n - 1);
      }
    } else {
      assert NeighboursBelow(c, 0) == {};
    }
  }

  /** One more offset adds one more cell. */
  lemma NeighboursBelowStep(c: Cell, i: nat)
    requires i < |Offsets|
    ensures NeighboursBelow(c, i + 1) == NeighboursBelow(c, i) + {Shift(c, i)}
  {
  }

  /** A cell is not its own neighbour, and it has eight of them. */
  lemma NeighboursFacts(c: Cell)
    ensures c !in Neighbours(c)
    ensures |Neighbours(c)| == 8
  {
    NeighboursAreAdjacent(c, c);
    NeighboursBelowCount(c, |Offsets|);
  }

  /** Some offset of c lands on a recorded bomb exactly when a neighbour is one. */
  lemma BombAroundShift(bombs: set<Cell>, c: Cell)
    ensures BombAround(bombs, c) <==> exists i :: 0 <= i < |Offsets| && Shift(c, i) in bombs
  {
    if BombAround(bombs, c) {
      var d :| d in Neighbours(c) * bombs;
      var i :| 0 <= i < |Offsets| && Shift(c, i) == d;
    }
    if i :| 0 <= i < |Offsets| && Shift(c, i) in bombs {
      assert Shift(c, i) in Neighbours(c) * bombs;
    }
  }

  /** The offset test of hasAdjacentBomb is the same as asking for an adjacent bomb. */
  lemma BombAroundIff(bombs: set<Cell>, c: Cell)
    ensures BombAround(bombs, c) <==> exists b :: b in bombs && Adjacent(b, c)
  {
    if BombAround(bombs, c) {
      var b :| b in Neighbours(c) * bombs;
      NeighboursAreAdjacent(c, b);
    }
    if b :| b in bombs && Adjacent(b, c) {
      NeighboursAreAdjacent(c, b);
      assert b in Neighbours(c) * bombs;
    }
  }
}
