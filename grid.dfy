/** Board geometry of the snake game: the cell size, the window size, the four
    headings and the box test the game uses for every collision. */
module Grid {

  /** Side of one cell in pixels; every position and every step is a whole cell. */
  const SIZE: int := 40
  const WINDOW_W: int := 1000
  const WINDOW_H: int := 800

  /** Largest column and row index `Apple.move` draws (inclusive bounds of randint). */
  const MAX_COL: int := WINDOW_W / SIZE - 1
  const MAX_ROW: int := WINDOW_H / SIZE - 1

  datatype Direction = Left | Right | Up | Down

  /** The heading that would turn the snake back onto itself. */
  function Opposite(d: Direction): (o: Direction)
    ensures o != d
    ensures DeltaX(o) == -DeltaX(d) && DeltaY(o) == -DeltaY(d)
  {
    match d
    case Left => Right
    case Right => Left
    case Up => Down
    case Down => Up
  }

  lemma OppositeIsInvolution(d: Direction)
    ensures Opposite(Opposite(d)) == d
  {
  }

  /** Horizontal and vertical displacement of the head for one walk. */
  function DeltaX(d: Direction): int {
    match d
    case Left => -SIZE
    case Right => SIZE
    case _ => 0
  }

  function DeltaY(d: Direction): int {
    match d
    case Up => -SIZE
    case Down => SIZE
    case _ => 0
  }

  /** One whole-cell step along exactly one axis, in the sense of the heading. */
  lemma StepIsOneCell(d: Direction)
    ensures (DeltaX(d) == 0) != (DeltaY(d) == 0)
    ensures (DeltaX(d) == 0) <==> (d == Up || d == Down)
    ensures DeltaX(d) == 0 ==> (DeltaY(d) == SIZE <==> d == Down) && (DeltaY(d) == -SIZE <==> d == Up)
    ensures DeltaY(d) == 0 ==> (DeltaX(d) == SIZE <==> d == Right) && (DeltaX(d) == -SIZE <==> d == Left)
    ensures DeltaX(Opposite(d)) == -DeltaX(d) && DeltaY(Opposite(d)) == -DeltaY(d)
  {
  }

  /** A coordinate that is a whole number of cells. */
  predicate Aligned(v: int) {
    v % SIZE == 0
  }

  /** Two aligned coordinates less than a cell apart are equal. */
  lemma AlignedCells(a: int, b: int)
    ensures Aligned(a) && Aligned(b) && b <= a < b + SIZE ==> a == b
  {
    if Aligned(a) && Aligned(b) {
      var p, q := a / SIZE, b / SIZE;
      assert a == p * SIZE && b == q * SIZE;
      if p < q {
        assert p * SIZE <= (q - 1) * SIZE;
      } else if p > q {
        assert (q + 1) * SIZE <= p * SIZE;
      }
    }
  }

  /** The collision test: the point (x1, y1) lies in the half-open box of side
      SIZE whose top-left corner is (x2, y2). On cell-aligned coordinates it is
      plain equality of the two positions. */
  predicate IsCollision(x1: int, y1: int, x2: int, y2: int)
    ensures Aligned(x1) && Aligned(y1) && Aligned(x2) && Aligned(y2) ==>
      (IsCollision(x1, y1, x2, y2) <==> x1 == x2 && y1 == y2)
  {
    AlignedCells(x1, x2);
    AlignedCells(y1, y2);
    (x1 >= x2 && x1 < x2 + SIZE) && (y1 >= y2 && y1 < y2 + SIZE)
  }

  /** A cell-aligned position inside the window. */
  predicate OnGrid(x: int, y: int) {
    Aligned(x) && Aligned(y) && 0 <= x < WINDOW_W && 0 <= y < WINDOW_H
  }

  /** The wall test of the game: the head has left the window. An aligned
      position passes it exactly when it is on the grid. */
  predicate OffBoard(x: int, y: int)
    ensures Aligned(x) && Aligned(y) ==> (!OffBoard(x, y) <==> OnGrid(x, y))
  {
    x < 0 || x >= WINDOW_W || y < 0 || y >= WINDOW_H
  }

  /** The box test is not symmetric off the grid: a point just inside the box
      collides, while the box's own corner seen from that point does not. */
  lemma CollisionIsABoxNotEquality()
    ensures IsCollision(SIZE - 1, 0, 0, 0) && !IsCollision(0, 0, SIZE - 1, 0)
  {
  }

  /** The wall test flags exactly the positions outside the window; the first
      and last cells of each axis are safe and one cell beyond is not. */
  lemma OffBoardBoundaries()
    ensures !OffBoard(0, 0) && !OffBoard(WINDOW_W - SIZE, WINDOW_H - SIZE)
    ensures OffBoard(-SIZE, 0) && OffBoard(0, -SIZE)
    ensures OffBoard(WINDOW_W, 0) && OffBoard(0, WINDOW_H)
  {
  }

  /** The position of a column/row pair drawn from `Apple.move`'s ranges. */
  function CellPosition(col: int, row: int): (p: (int, int))
    requires 0 <= col <= MAX_COL && 0 <= row <= MAX_ROW
    ensures OnGrid(p.0, p.1)
    ensures p.0 / SIZE == col && p.1 / SIZE == row
  {
    (col * SIZE, row * SIZE)
  }

  /** The draw ranges cover every on-grid cell: each one is the position of
      exactly the column and row it lies in. */
  lemma EveryCellIsDrawable(x: int, y: int)
    requires OnGrid(x, y)
    ensures 0 <= x / SIZE <= MAX_COL && 0 <= y / SIZE <= MAX_ROW
    ensures CellPosition(x / SIZE, y / SIZE) == (x, y)
  {
  }
}
