# Tile state and map encoding of the mudflood map maker

The map maker is a small editor for a 16 x 16 grid of tiles. Each tile can
carry a wall on any of its four edges (north, east, south, west) and can be
marked full (entirely blocked). A click toggles either one wall or the full
flag of a tile, depending on which radio button is selected. "Clear Map"
resets every tile. "Save Map" writes a sparse map from a tile's row-major
linear index to a list of codes: north 0, east 1, south 2, west 3, full 4.
"Load Map" clears the grid and then applies a saved map.

This project models that tile state and the encoding in Dafny, without the
drawing:

- `grid.dfy`, module `Grid`: the grid size and the conversion between
  (row, col) and the linear index.
- `tiles.dfy`, module `Tiles`: the tile record, the wall directions and their
  codes, the effect of a click, and the code list a tile is saved as.
- `codec.dfy`, module `Codec`: the saved map as a function of the tiles
  (`Encode`) and loading as a function of the tiles and a map (`DecodeTile`,
  `Loaded`), with the lemmas for sparsity, the round trip, and the fact that
  loading ignores foreign keys and codes.
- `editor.dfy`, module `Editor`: the class `MapEditor`. It holds the tiles in
  an array indexed by linear index. Its methods update the array in place as
  the editor does, and each is proved against the functions of `Codec` and
  `Tiles`.
- `scenario.dfy`, module `Scenario`: one concrete grid saved and loaded.

Design choices:

- A tile is identified by its linear index, not by its canvas item. The
  invariant `MapEditor.Valid` ties the tile at index i to the coordinates
  `IntToCoords(i)`.
- A wall is a boolean. In the editor a wall's value is its canvas rectangle,
  `None` or `False`. Apart from being passed to `canvas.delete` to erase the
  drawing (mapEditor.py:87, 143), only the value's truthiness is read.
- The selected radio button is a `Selection` parameter of `Click`.
- Saved maps are `map<int, seq<int>>`. The decimal-string keys only exist in
  the JSON file.

Loading walks the grid's tiles and looks up each tile's own key
(mapEditor.py:153-156). It never walks the map's keys, so a key outside the
grid is never looked at (`LoadIgnoresForeign`). `load_map` returns nothing.

## Model

| member | source | states |
|---|---|---|
| Grid.CoordsToInt | mapEditor.py:101-102 | the linear index of an on-grid coordinate pair lies in [0, 256) |
| Grid.IntToCoords | mapEditor.py:104-105 | the column is in [0, 16), converting back gives the same index for every integer, and the pair is on the grid exactly when the index is in [0, 256) |
| Grid.CoordsRoundTrip | mapEditor.py:101-105 | for an on-grid (row, col), intToCoords(coordsToInt(row, col)) gives back (row, col) |
| Grid.CoordsToIntBijective | mapEditor.py:101-105 | on the grid, two pairs have the same index exactly when they are equal, and every index in [0, 256) is the index of an on-grid pair |
| Tiles.Code | mapEditor.py:8-13 | a direction's code is in 0..3 and is its position in the wall order north, east, south, west |
| Tiles.SetWall | mapEditor.py:84-99 | setting one wall flag changes that flag only; the other walls, full and the position stay |
| Tiles.EmptyTile | mapEditor.py:59 | a new tile record has the given position, no walls and is not full |
| Tiles.Cleared | mapEditor.py:133-144 | a cleared tile keeps its position and is empty; an empty tile is unchanged by clearing |
| Tiles.Click | mapEditor.py:74-99 | "full" negates full and keeps every wall; a direction negates exactly that wall and keeps the other three and full; the position never changes |
| Tiles.ClickTwice | mapEditor.py:74-99 | two clicks with the same selection restore the tile |
| Tiles.ClearedIdempotent | mapEditor.py:133-144 | clearing a second time changes nothing |
| Tiles.TileCodes | mapEditor.py:112-124 | a full tile is saved as exactly [4], whatever its walls; otherwise as the codes of its set walls, strictly increasing, so without duplicates; the list is empty exactly when the tile is empty |
| Codec.Encode | mapEditor.py:107-127 | the saved map never stores an empty list |
| Codec.EncodeAt | mapEditor.py:107-127 | for a row-major grid, index k is a key exactly when tile k exists and is full or has a wall, and its list is that tile's code list |
| Codec.EncodeSparse | mapEditor.py:126-127 | the same over all keys of a whole 16 x 16 grid: empty tiles are never keys |
| Codec.DecodeTile | mapEditor.py:153-182 | a tile whose key is absent is unchanged; otherwise full becomes "4 is listed", and each wall is set when it was set or its code is listed; other codes change nothing |
| Codec.Loaded | mapEditor.py:146-182 | loading keeps the number of tiles and every tile's position, and a tile whose index is not a key comes back empty (no walls, not full) |
| Codec.Canonical | mapEditor.py:114-115 | what a save keeps of a tile: the same full flag and position, the whole tile when not full, no walls when full |
| Codec.RoundTripAt | mapEditor.py:107-182 | after clearing, loading the saved map gives each tile back exactly when it is not full, and as full without walls when it is full |
| Codec.RoundTrip | mapEditor.py:107-182 | the same over a whole grid: full flags come back exactly, non-full tiles come back exactly |
| Codec.LoadIgnoresForeign | mapEditor.py:153-182 | two maps that agree on the grid's keys and on which codes 0..4 those keys list load the same; keys outside the grid, other codes, duplicates and order never matter |
| Codec.EncodeDependsOnCodes | mapEditor.py:107-127 | grids with the same positions and code lists are saved as the same map |
| Codec.SaveLoadSave | mapEditor.py:107-182 | saving, loading and saving again writes the same map as the first save |
| Scenario.ExampleSave | mapEditor.py:107-127 | north and east walls on (0, 0) and a full (1, 1) save as {0: [0, 1], 17: [4]} |
| Scenario.ExampleLoad | mapEditor.py:146-182 | loading {17: [4]} into that grid leaves only (1, 1) set, full and without walls, and removes the walls of (0, 0) |
| Editor.MapEditor.constructor | mapEditor.py:49-59 | the grid is built row by row with the tile at index i empty and at coordinates intToCoords(i) |
| Editor.MapEditor.Click | mapEditor.py:63-99 | a click replaces the clicked tile by Tiles.Click of it and leaves every other tile unchanged |
| Editor.MapEditor.Clear | mapEditor.py:133-144 | every tile becomes its cleared form, keeping its position |
| Editor.MapEditor.Save | mapEditor.py:107-127 | the map built equals Encode of the tiles: keys are exactly the non-empty tiles, each with its code list |
| Editor.MapEditor.Load | mapEditor.py:146-182 | the new tiles are exactly Loaded of the old tiles and the map: cleared, then decoded tile by tile |

## Left out

- The tkinter window, radio buttons, buttons and main loop (mapEditor.py:19-47, 208-211): user-interface wiring.
- Canvas drawing: tile and wall rectangles, pixel geometry and colours (mapEditor.py:52-58, 61, 69-72, 76, 79, 87, 91-98, 137, 143, 162, 184-201). This includes the colour `clear_map` picks from the parity of the canvas item id (mapEditor.py:137), which is rendering only.
- Writing and reading `map_data.json`, the missing-file path and the log messages (mapEditor.py:129-131, 149-151, 204-206): file I/O. `MapEditor.Load` takes the already-decoded map, and `MapEditor.Save` returns the map instead of writing it.
- The decimal-string form of the keys: it only exists in the JSON file, so keys are integers here.
- JSON values that are not lists of integers (a `true` in a list, which Python compares equal to 1, or a list of floats): code lists are `seq<int>`.
