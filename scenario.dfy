/**
 * A worked instance of saving and loading on the 16 x 16 grid.
 */
module Scenario {
  import opened Grid
  import opened Tiles
  import opened Codec

  /** The grid with north and east walls on tile (0, 0) and tile (1, 1) full. */
  function ExampleGrid(): (ts: seq<Tile>)
    ensures IsGrid(ts)
    ensures ts[0] == Tile(0, 0, true, true, false, false, false)
    ensures ts[17] == Tile(1, 1, false, false, false, false, true)
    ensures forall i :: 0 <= i < TILE_COUNT && i != 0 && i != 17 ==> IsEmpty(ts[i])
  {
    seq(TILE_COUNT, i requires 0 <= i < TILE_COUNT =>
      if i == 0 then EmptyTile(IntToCoords(i)).(north := true, east := true)
      else if i == 17 then EmptyTile(IntToCoords(i)).(full := true)
      else EmptyTile(IntToCoords(i)))
  }

  /** Saving that grid writes {0: [0, 1], 17: [4]}. */
  lemma ExampleSave()
    ensures Encode(ExampleGrid()) == map[0 := [0, 1], 17 := [4]]
  {
    var ts := ExampleGrid();
    var m := Encode(ts);
    var expected := map[0 := [0, 1], 17 := [4]];
    forall k ensures (k in m <==> k in expected) && (k in m ==> m[k] == expected[k]) {
      EncodeAt(ts, k);
    }
    assert m == expected;
  }

  /**
   * Loading {17: [4]} into that grid leaves only tile (1, 1) set, full and
   * without walls, and clears the walls of tile (0, 0).
   */
  lemma ExampleLoad()
    ensures forall i :: 0 <= i < TILE_COUNT && i != 17 ==> IsEmpty(Loaded(ExampleGrid(), map[17 := [4]])[i])
    ensures Loaded(ExampleGrid(), map[17 := [4]])[17] == Tile(1, 1, false, false, false, false, true)
  {
  }
}
