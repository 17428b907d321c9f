/**
 * The editor's tile state: one record per cell, updated in place by clicks,
 * the clear operation and loading, and read by saving. The array position
 * of a tile is its linear index.
 */
module Editor {
  import opened Grid
  import opened Tiles
  import opened Codec

  class MapEditor {
    var tiles: array<Tile>

    ghost predicate Valid()
      reads this, tiles
    {
      tiles.Length == TILE_COUNT && RowMajor(tiles[..])
    }

    /** Build the grid row by row, every tile empty. */
    constructor ()
      ensures Valid() && fresh(tiles)
      ensures forall i :: 0 <= i < TILE_COUNT ==> tiles[i] == EmptyTile(IntToCoords(i))
    {
      var a := new Tile[TILE_COUNT];
      var row := 0;
      while row < GRID_SIZE
        invariant 0 <= row <= GRID_SIZE
        invariant forall i :: 0 <= i < row * GRID_SIZE ==> a[i] == EmptyTile(IntToCoords(i))
      {
        var col := 0;
        while col < GRID_SIZE
          invariant 0 <= col <= GRID_SIZE
          invariant forall i :: 0 <= i < row * GRID_SIZE + col ==> a[i] == EmptyTile(IntToCoords(i))
        {
          var c := Coords(row, col);
          a[CoordsToInt(c)] := EmptyTile(c);
          CoordsRoundTrip(c);
          col := col + 1;
        }
        row := row + 1;
      }
      tiles := a;
    }

    /** Clicking tile i with the given selection flips one flag of that tile. */
    method Click(i: int, sel: Selection)
      requires Valid() && 0 <= i < TILE_COUNT
      modifies tiles
      ensures Valid()
      ensures tiles[..] == old(tiles[..])[i := Tiles.Click(old(tiles[i]), sel)]
    {
      var t := tiles[i];
      match sel {
        case Full =>
          if t.full {
            t := t.(full := false);
          } else {
            t := t.(full := true);
          }
        case WallOf(d) =>
          var wall := Wall(t, d);
          if wall {
            t := SetWall(t, d, false);
          } else {
            t := SetWall(t, d, true);
          }
      }
      tiles[i] := t;
      assert forall j :: 0 <= j < TILE_COUNT ==> Position(tiles[j]) == Position(old(tiles[j]));
    }

    /**
     * Reset every tile: a set full flag is switched off, then each set wall,
     * in the order of Directions.
     */
    method Clear()
      requires Valid()
      modifies tiles
      ensures Valid()
      ensures forall i :: 0 <= i < TILE_COUNT ==> tiles[i] == Cleared(old(tiles[i]))
    {
      var i := 0;
      while i < TILE_COUNT
        invariant 0 <= i <= TILE_COUNT
        invariant forall j :: 0 <= j < i ==> tiles[j] == Cleared(old(tiles[j]))
        invariant forall j :: i <= j < TILE_COUNT ==> tiles[j] == old(tiles[j])
      {
        var t := tiles[i];
        if t.full {
          t := t.(full := false);
        }
        var k := 0;
        while k < |Directions|
          invariant 0 <= k <= |Directions|
          invariant !t.full && Position(t) == Position(old(tiles[i]))
          invariant forall j :: 0 <= j < k ==> !Wall(t, Directions[j])
        {
          var d := Directions[k];
          if Wall(t, d) {
            t := SetWall(t, d, false);
          }
          k := k + 1;
        }
        assert !Wall(t, Directions[0]) && !Wall(t, Directions[1]) && !Wall(t, Directions[2]) && !Wall(t, Directions[3]);
        tiles[i] := t;
        i := i + 1;
      }
    }

    /**
     * Build the saved map: for each tile in grid order, its code list (the
     * full code alone, or its wall codes in order), stored under the tile's
     * linear index when the list is not empty.
     */
    method Save() returns (m: TileMap)
      requires Valid()
      ensures m == Encode(tiles[..])
      ensures forall k :: k in m <==> 0 <= k < TILE_COUNT && !IsEmpty(tiles[k])
      ensures forall k :: k in m ==> m[k] == TileCodes(tiles[k])
    {
      m := map[];
      var i := 0;
      while i < TILE_COUNT
        invariant 0 <= i <= TILE_COUNT
        invariant m == Encode(tiles[..i])
      {
        var t := tiles[i];
        var items: seq<int> := [];
        if t.full {
          items := items + [FULL_CODE];
        } else {
          if t.north {
            items := items + [Code(North)];
          }
          ghost var n := if t.north then [Code(North)] else [];
          assert items == n;
          if t.east {
            items := items + [Code(East)];
          }
          ghost var ne := n + if t.east then [Code(East)] else [];
          assert items == ne;
          if t.south {
            items := items + [Code(South)];
          }
          ghost var nes := ne + if t.south then [Code(South)] else [];
          assert items == nes;
          if t.west {
            items := items + [Code(West)];
          }
          assert items == nes + if t.west then [Code(West)] else [];
        }
        assert items == TileCodes(t);
        if |items| > 0 {
          m := m[CoordsToInt(Position(t)) := items];
        }
        EncodeSnoc(tiles[..], i);
        assert tiles[..][..i + 1] == tiles[..i + 1];
        i := i + 1;
      }
      assert tiles[..i] == tiles[..];
      EncodeSparse(tiles[..]);
    }

    /**
     * Load a saved map: clear the grid, then for each tile whose linear
     * index is a key set `full` to whether the full code is listed and
     * switch on the wall of each listed code 0 to 3, skipping other codes.
     */
    method Load(m: TileMap)
      requires Valid()
      modifies tiles
      ensures Valid()
      ensures tiles[..] == Loaded(old(tiles[..]), m)
    {
      Clear();
      var i := 0;
      while i < TILE_COUNT
        invariant 0 <= i <= TILE_COUNT
        invariant forall j :: 0 <= j < i ==> tiles[j] == DecodeTile(Cleared(old(tiles[j])), m)
        invariant forall j :: i <= j < TILE_COUNT ==> tiles[j] == Cleared(old(tiles[j]))
      {
        var t := tiles[i];
        var key := CoordsToInt(Position(t));
        if key in m {
          var info := m[key];
          var tileFull := false;
          if FULL_CODE in info {
            tileFull := true;
          }
          t := t.(full := tileFull);
          var k := 0;
          while k < |info|
            invariant 0 <= k <= |info|
            invariant t.full == tileFull && Position(t) == Position(tiles[i])
            invariant forall d :: Wall(t, d) == (Code(d) in info[..k])
          {
            var direction := info[k];
            if direction == 0 {
              t := t.(north := true);
            } else if direction == 1 {
              t := t.(east := true);
            } else if direction == 2 {
              t := t.(south := true);
            } else if direction == 3 {
              t := t.(west := true);
            }
            assert info[..k + 1] == info[..k] + [direction];
            k := k + 1;
          }
          assert info[..k] == info;
        }
        tiles[i] := t;
        i := i + 1;
      }
    }
  }
}
