/**
 * The fixed square grid of the map editor and the conversion between a
 * tile's (row, col) coordinates and its row-major linear index, the key
 * under which a tile is stored in a saved map.
 */
module Grid {

  /** Number of rows and of columns of the grid. */
  const GRID_SIZE: int := 16

  /** Number of tiles, and so the number of linear indices. */
  const TILE_COUNT: int := GRID_SIZE * GRID_SIZE

  /** A (row, col) pair; the editor passes it around as a two-element list. */
  datatype Coords = Coords(row: int, col: int)

  predicate InGrid(c: Coords)
  {
    0 <= c.row < GRID_SIZE && 0 <= c.col < GRID_SIZE
  }

  /** Row-major linear index of a coordinate pair. */
  function CoordsToInt(c: Coords): (n: int)
    ensures InGrid(c) ==> 0 <= n < TILE_COUNT
  {
    c.row * GRID_SIZE + c.col
  }

  /**
   * Coordinates of a linear index. `intToCoords` in mapEditor.py uses `//`
   * and `%`, which for the positive divisor GRID_SIZE agree with Dafny's
   * Euclidean `/` and `%` for every integer, negative ones included.
   */
  function IntToCoords(n: int): (c: Coords)
    ensures 0 <= c.col < GRID_SIZE
    ensures CoordsToInt(c) == n
    ensures InGrid(c) <==> 0 <= n < TILE_COUNT
  {
    Coords(n / GRID_SIZE, n % GRID_SIZE)
  }

  /** On the grid, converting to an index and back gives the coordinates back. */
  lemma CoordsRoundTrip(c: Coords)
    requires InGrid(c)
    ensures IntToCoords(CoordsToInt(c)) == c
  {
  }

  /**
   * The linear index is a bijection from the grid onto [0, TILE_COUNT):
   * distinct tiles get distinct indices, and every index in range is the
   * index of exactly the tile IntToCoords names.
   */
  lemma CoordsToIntBijective(a: Coords, b: Coords, n: int)
    requires InGrid(a) && InGrid(b)
    ensures CoordsToInt(a) == CoordsToInt(b) <==> a == b
    ensures 0 <= n < TILE_COUNT ==> InGrid(IntToCoords(n)) && CoordsToInt(IntToCoords(n)) == n
  {
  }
}
