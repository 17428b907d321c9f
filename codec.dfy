/**
 * The saved map: a sparse map from a tile's linear index to its code list.
 * Encode is what saving computes from the tiles taken in grid order;
 * DecodeTile and Loaded are what loading does to each tile. The lemmas
 * state sparsity, canonical code lists, the round trip and that loading
 * looks only at grid keys and at codes 0 to 4.
 */
module Codec {
  import opened Grid
  import opened Tiles

  type TileMap = map<int, seq<int>>

  /**
   * The tiles are laid out row-major from the first cell: the tile at
   * position i of the sequence has coordinates IntToCoords(i).
   */
  predicate RowMajor(ts: seq<Tile>)
  {
    |ts| <= TILE_COUNT && forall i :: 0 <= i < |ts| ==> Position(ts[i]) == IntToCoords(i)
  }

  /** A whole grid: every cell, in row-major order. */
  predicate IsGrid(ts: seq<Tile>)
  {
    |ts| == TILE_COUNT && RowMajor(ts)
  }

  /**
   * Saving: walk the tiles in order; a tile with a non-empty code list is
   * stored under the linear index of its own coordinates. No stored list
   * is empty.
   */
  function Encode(ts: seq<Tile>): (m: TileMap)
    ensures forall k :: k in m ==> m[k] != []
  {
    if ts == [] then map[]
    else
      var t := ts[|ts| - 1];
      var codes := TileCodes(t);
      var m := Encode(ts[..|ts| - 1]);
      if |codes| > 0 then m[CoordsToInt(Position(t)) := codes] else m
  }

  /** Saving one more tile extends the map saved for the tiles before it. */
  lemma EncodeSnoc(ts: seq<Tile>, i: int)
    requires 0 <= i < |ts|
    ensures Encode(ts[..i + 1]) ==
      if TileCodes(ts[i]) != [] then Encode(ts[..i])[CoordsToInt(Position(ts[i])) := TileCodes(ts[i])]
      else Encode(ts[..i])
  {
    assert ts[..i + 1][..i] == ts[..i];
  }

  /**
   * Sparsity and content of a saved map: index k is a key exactly when the
   * tile at k is full or has a wall, and then its list is that tile's code
   * list.
   */
  lemma {:induction false} EncodeAt(ts: seq<Tile>, k: int)
    requires RowMajor(ts)
    ensures k in Encode(ts) <==> 0 <= k < |ts| && !IsEmpty(ts[k])
    ensures k in Encode(ts) ==> Encode(ts)[k] == TileCodes(ts[k])
  {
    if ts != [] {
      var n := |ts| - 1;
      var prefix := ts[..n];
      assert RowMajor(prefix) by {
        forall i | 0 <= i < |prefix| ensures Position(prefix[i]) == IntToCoords(i) {
          assert prefix[i] == ts[i];
        }
      }
      EncodeAt(prefix, k);
      assert CoordsToInt(Position(ts[n])) == n;
      if k != n {
        assert 0 <= k < n ==> prefix[k] == ts[k];
      }
    }
  }

  /** The whole saved map, stated over every key at once. */
  lemma EncodeSparse(ts: seq<Tile>)
    requires IsGrid(ts)
    ensures forall k :: k in Encode(ts) <==> 0 <= k < TILE_COUNT && !IsEmpty(ts[k])
    ensures forall k :: k in Encode(ts) ==> Encode(ts)[k] == TileCodes(ts[k])
  {
    forall k
      ensures k in Encode(ts) <==> 0 <= k < TILE_COUNT && !IsEmpty(ts[k])
      ensures k in Encode(ts) ==> Encode(ts)[k] == TileCodes(ts[k])
    {
      EncodeAt(ts, k);
    }
  }

  /**
   * Loading one tile: if the tile's linear index is a key, `full` becomes
   * whether FULL_CODE occurs in the list, and each wall whose code occurs is
   * switched on; other codes are skipped. A tile whose index is no key is
   * left as it is.
   */
  function DecodeTile(t: Tile, m: TileMap): (r: Tile)
    ensures Position(r) == Position(t)
    ensures CoordsToInt(Position(t)) !in m ==> r == t
    ensures CoordsToInt(Position(t)) in m ==> r.full == (FULL_CODE in m[CoordsToInt(Position(t))])
    ensures forall d :: Wall(r, d) == (Wall(t, d) || (CoordsToInt(Position(t)) in m && Code(d) in m[CoordsToInt(Position(t))]))
  {
    var key := CoordsToInt(Position(t));
    if key !in m then t
    else
      var info := m[key];
      Tile(t.row, t.col,
           t.north || Code(North) in info,
           t.east || Code(East) in info,
           t.south || Code(South) in info,
           t.west || Code(West) in info,
           FULL_CODE in info)
  }

  /** Loading a map into a grid: clear every tile, then decode each. */
  function Loaded(ts: seq<Tile>, m: TileMap): (r: seq<Tile>)
    ensures |r| == |ts|
    ensures forall i :: 0 <= i < |ts| ==> Position(r[i]) == Position(ts[i])
    ensures forall i :: 0 <= i < |ts| && CoordsToInt(Position(ts[i])) !in m ==> IsEmpty(r[i])
  {
    seq(|ts|, i requires 0 <= i < |ts| => DecodeTile(Cleared(ts[i]), m))
  }

  /** What survives saving and loading a tile: a full tile loses its walls. */
  function Canonical(t: Tile): (r: Tile)
    ensures r.full == t.full && Position(r) == Position(t)
    ensures !t.full ==> r == t
    ensures t.full ==> forall d :: !Wall(r, d)
  {
    if t.full then Cleared(t).(full := true) else t
  }

  /**
   * Round trip of one tile: loading what was saved gives back the tile's
   * full flag exactly, its walls exactly when it is not full, and no walls
   * when it is full.
   */
  lemma {:induction false} RoundTripAt(ts: seq<Tile>, i: int)
    requires RowMajor(ts) && 0 <= i < |ts|
    ensures DecodeTile(Cleared(ts[i]), Encode(ts)) == Canonical(ts[i])
  {
    var t := ts[i];
    var m := Encode(ts);
    EncodeAt(ts, i);
    assert CoordsToInt(Position(Cleared(t))) == i;
    var r := DecodeTile(Cleared(t), m);
    if IsEmpty(t) {
      assert i !in m;
    } else {
      var codes := TileCodes(t);
      assert m[i] == codes;
      if t.full {
        forall d ensures !Wall(r, d) {
          assert Code(d) != FULL_CODE;
        }
      } else {
        assert FULL_CODE !in codes;
        forall d ensures Wall(r, d) == Wall(t, d) {
          assert Directions[Code(d)] == d;
        }
        assert Wall(r, North) == Wall(t, North) && Wall(r, East) == Wall(t, East);
        assert Wall(r, South) == Wall(t, South) && Wall(r, West) == Wall(t, West);
      }
    }
  }

  /**
   * Round trip of a whole grid: loading the saved map reproduces every
   * tile's full flag, reproduces every non-full tile exactly, and gives full
   * tiles no walls.
   */
  lemma RoundTrip(ts: seq<Tile>)
    requires IsGrid(ts)
    ensures forall i :: 0 <= i < |ts| ==> Loaded(ts, Encode(ts))[i] == Canonical(ts[i])
    ensures forall i :: 0 <= i < |ts| ==> Loaded(ts, Encode(ts))[i].full == ts[i].full
    ensures forall i :: 0 <= i < |ts| && !ts[i].full ==> Loaded(ts, Encode(ts))[i] == ts[i]
  {
    forall i | 0 <= i < |ts| ensures Loaded(ts, Encode(ts))[i] == Canonical(ts[i]) {
      RoundTripAt(ts, i);
    }
  }

  /**
   * Two maps load the same at key k when k is a key of both or of neither
   * and, if it is, the two lists agree on which of the codes 0 to 4 occur.
   */
  predicate SameEntry(m1: TileMap, m2: TileMap, k: int)
  {
    (k in m1 <==> k in m2) &&
    (k in m1 ==> forall c :: 0 <= c <= FULL_CODE ==> (c in m1[k] <==> c in m2[k]))
  }

  /**
   * Loading looks only at the grid's own keys and at codes 0 to 4: keys
   * outside the grid, unknown codes, duplicates and the order of a list
   * never change any tile.
   */
  lemma LoadIgnoresForeign(ts: seq<Tile>, m1: TileMap, m2: TileMap)
    requires RowMajor(ts)
    requires forall k :: 0 <= k < |ts| ==> SameEntry(m1, m2, k)
    ensures Loaded(ts, m1) == Loaded(ts, m2)
  {
    forall i | 0 <= i < |ts| ensures Loaded(ts, m1)[i] == Loaded(ts, m2)[i] {
      var t := Cleared(ts[i]);
      assert CoordsToInt(Position(t)) == i;
      assert SameEntry(m1, m2, i);
      if i in m1 {
        assert Code(North) in m1[i] <==> Code(North) in m2[i];
        assert Code(East) in m1[i] <==> Code(East) in m2[i];
        assert Code(South) in m1[i] <==> Code(South) in m2[i];
        assert Code(West) in m1[i] <==> Code(West) in m2[i];
        assert FULL_CODE in m1[i] <==> FULL_CODE in m2[i];
      }
    }
  }

  /**
   * Tiles with the same positions and code lists are saved the same: the
   * saved map depends on nothing else.
   */
  lemma {:induction false} EncodeDependsOnCodes(a: seq<Tile>, b: seq<Tile>)
    requires |a| == |b|
    requires forall i :: 0 <= i < |a| ==> Position(a[i]) == Position(b[i]) && TileCodes(a[i]) == TileCodes(b[i])
    ensures Encode(a) == Encode(b)
  {
    if a != [] {
      var n := |a| - 1;
      EncodeDependsOnCodes(a[..n], b[..n]);
    }
  }

  /**
   * Saving, loading and saving again writes the same map as the first save:
   * a saved map is a fixed point of load-then-save.
   */
  lemma SaveLoadSave(ts: seq<Tile>)
    requires IsGrid(ts)
    ensures Encode(Loaded(ts, Encode(ts))) == Encode(ts)
  {
    var r := Loaded(ts, Encode(ts));
    forall i | 0 <= i < |ts| ensures Position(r[i]) == Position(ts[i]) && TileCodes(r[i]) == TileCodes(ts[i]) {
      RoundTripAt(ts, i);
    }
    EncodeDependsOnCodes(r, ts);
  }
}
