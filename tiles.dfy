/**
 * One tile of the map: its fixed coordinates, four wall flags and the
 * `full` flag, the radio-button selection a click applies, and the list of
 * integer codes a tile is saved as.
 */
module Tiles {
  import opened Grid

  /** The four wall directions, in the order the editor's wall record lists them. */
  datatype Direction = North | East | South | West

  const Directions: seq<Direction> := [North, East, South, West]

  /** Saved code of a wall direction: north 0, east 1, south 2, west 3. */
  function Code(d: Direction): (c: int)
    ensures 0 <= c < |Directions| && Directions[c] == d
  {
    match d
    case North => 0
    case East => 1
    case South => 2
    case West => 3
  }

  /** Saved code of a full tile. */
  const FULL_CODE: int := 4

  /**
   * A tile record. `row` and `col` are fixed when the grid is built; a wall
   * flag is true while the wall is drawn.
   */
  datatype Tile = Tile(row: int, col: int, north: bool, east: bool, south: bool, west: bool, full: bool)

  function Position(t: Tile): Coords
  {
    Coords(t.row, t.col)
  }

  function Wall(t: Tile, d: Direction): bool
  {
    match d
    case North => t.north
    case East => t.east
    case South => t.south
    case West => t.west
  }

  function SetWall(t: Tile, d: Direction, b: bool): (r: Tile)
    ensures Wall(r, d) == b
    ensures forall e :: e != d ==> Wall(r, e) == Wall(t, e)
    ensures r.full == t.full && Position(r) == Position(t)
  {
    match d
    case North => t.(north := b)
    case East => t.(east := b)
    case South => t.(south := b)
    case West => t.(west := b)
  }

  /** Neither full nor carrying any wall: the state of every tile after a clear. */
  predicate IsEmpty(t: Tile)
  {
    !t.full && !t.north && !t.east && !t.south && !t.west
  }

  /** The record the grid is built with: no walls, not full. */
  function EmptyTile(c: Coords): (t: Tile)
    ensures IsEmpty(t) && Position(t) == c
  {
    Tile(c.row, c.col, false, false, false, false, false)
  }

  /** The tile after the clear operation: same position, every flag off. */
  function Cleared(t: Tile): (r: Tile)
    ensures IsEmpty(r) && Position(r) == Position(t)
    ensures IsEmpty(t) ==> r == t
  {
    EmptyTile(Position(t))
  }

  /** The selected radio button: one wall direction, or "full". */
  datatype Selection = WallOf(dir: Direction) | Full

  /**
   * Effect of clicking a tile: "full" flips the full flag and leaves the
   * walls alone; a direction flips that one wall and leaves the other walls
   * and the full flag alone.
   */
  function Click(t: Tile, s: Selection): (r: Tile)
    ensures Position(r) == Position(t)
    ensures s.Full? ==> r.full == !t.full && forall d :: Wall(r, d) == Wall(t, d)
    ensures s.WallOf? ==> r.full == t.full && Wall(r, s.dir) == !Wall(t, s.dir)
    ensures s.WallOf? ==> forall e :: e != s.dir ==> Wall(r, e) == Wall(t, e)
  {
    match s
    case Full => t.(full := !t.full)
    case WallOf(d) => SetWall(t, d, !Wall(t, d))
  }

  /** Clicking twice with the same selection restores the tile. */
  lemma ClickTwice(t: Tile, s: Selection)
    ensures Click(Click(t, s), s) == t
  {
  }

  /** Clearing a tile that is already clear changes nothing. */
  lemma ClearedIdempotent(t: Tile)
    ensures Cleared(Cleared(t)) == Cleared(t)
  {
  }

  predicate StrictlyIncreasing(s: seq<int>)
  {
    forall i, j :: 0 <= i < j < |s| ==> s[i] < s[j]
  }

  /**
   * The code list a tile is saved as: exactly [FULL_CODE] when the tile is
   * full, whatever its walls; otherwise the codes of its walls, each once,
   * in increasing order; empty exactly when the tile is empty.
   */
  function TileCodes(t: Tile): (codes: seq<int>)
    ensures t.full ==> codes == [FULL_CODE]
    ensures !t.full ==> forall c :: c in codes <==> 0 <= c < |Directions| && Wall(t, Directions[c])
    ensures !t.full ==> StrictlyIncreasing(codes)
    ensures codes == [] <==> IsEmpty(t)
  {
    if t.full then [FULL_CODE]
    else
      (if t.north then [Code(North)] else [])
      + (if t.east then [Code(East)] else [])
      + (if t.south then [Code(South)] else [])
      + (if t.west then [Code(West)] else [])
  }
}
