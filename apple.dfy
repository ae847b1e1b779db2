/** The apple: one on-grid position, relocated to a drawn cell when eaten.
    The random draw is the caller's: `Move` receives the column and the row. */
module AppleModel {
  import opened Grid

  class Apple {
    var x: int
    var y: int

    /** A new apple starts on cell (3, 3). */
    constructor ()
      ensures x == 3 * SIZE && y == 3 * SIZE
      ensures OnGrid(x, y)
    {
      x := 3 * SIZE;
      y := 3 * SIZE;
    }

    /** Relocation to column `col` and row `row`, each drawn from the inclusive
        range `Apple.move` uses. The new position is on the grid; nothing keeps
        it off the snake. */
    method Move(col: int, row: int)
      requires 0 <= col <= MAX_COL && 0 <= row <= MAX_ROW
      modifies this
      ensures (x, y) == CellPosition(col, row)
      ensures OnGrid(x, y)
    {
      x := col * SIZE;
      y := row * SIZE;
    }
  }
}
