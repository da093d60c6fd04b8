/** The tile locator: which tile a point of the projected plane falls in, and
    the size of that plane at a zoom level.

    The program works on 64-bit floating-point pixel coordinates; they are
    modelled as exact reals (rounding is not modelled). The conversion divides
    by the tile edge and casts the quotient to a 32-bit integer, which
    truncates toward zero; Dafny's `Floor` rounds down, so the truncation is
    written out. */
module TileMath {
  import opened OsmData

  type Point = (real, real)
  type Tile = (int, int)

  /** The cast of a real to an integer: truncation toward zero. */
  function TruncReal(r: real): (i: int)
    ensures r >= 0.0 ==> i >= 0 && i as real <= r < i as real + 1.0
    ensures r < 0.0 ==> i <= 0 && i as real - 1.0 < r <= i as real
  {
    if r >= 0.0 then r.Floor else -((-r).Floor)
  }

  /** `t` is the tile coordinate of pixel coordinate `p` under truncation
      toward zero: for a non-negative p the tile [256 t, 256 t + 256) holds
      it, for a negative p the tile (256 t - 256, 256 t] does. */
  ghost predicate TruncatedTile(p: real, t: int)
  {
    (p >= 0.0 ==> (t * TILE_SIZE) as real <= p < (t * TILE_SIZE + TILE_SIZE) as real) &&
    (p < 0.0 ==> (t * TILE_SIZE - TILE_SIZE) as real < p <= (t * TILE_SIZE) as real)
  }

  /** convert_to_int_tile: both axes divided by the tile edge and truncated. */
  function ConvertToIntTile(px: real, py: real): (tile: Tile)
    ensures TruncatedTile(px, tile.0) && TruncatedTile(py, tile.1)
    ensures (px >= 0.0 ==> tile.0 >= 0) && (px <= 0.0 ==> tile.0 <= 0)
    ensures (py >= 0.0 ==> tile.1 >= 0) && (py <= 0.0 ==> tile.1 <= 0)
  {
    (TruncReal(px / TILE_SIZE as real), TruncReal(py / TILE_SIZE as real))
  }

  /** The tile of a point of the zoomed plane. */
  function TileOf(p: Point): Tile
  {
    ConvertToIntTile(p.0, p.1)
  }

  /** Moving a non-negative point one tile edge to the right (or down) moves
      it into the next tile. */
  lemma NextTileAfterOneEdge(px: real, py: real)
    requires px >= 0.0 && py >= 0.0
    ensures ConvertToIntTile(px + TILE_SIZE as real, py).0 == ConvertToIntTile(px, py).0 + 1
    ensures ConvertToIntTile(px, py + TILE_SIZE as real).1 == ConvertToIntTile(px, py).1 + 1
  {
    var t := ConvertToIntTile(px, py);
    var u := ConvertToIntTile(px + TILE_SIZE as real, py + TILE_SIZE as real);
    assert (u.0 * TILE_SIZE) as real <= px + TILE_SIZE as real < (u.0 * TILE_SIZE + TILE_SIZE) as real;
    assert (u.1 * TILE_SIZE) as real <= py + TILE_SIZE as real < (u.1 * TILE_SIZE + TILE_SIZE) as real;
  }

  /** Truncation rather than rounding down: every point strictly between -256
      and 256 lands in tile 0, so tile 0 is twice as wide as the others. */
  lemma TileZeroSpansBothSigns(p: real)
    requires -(TILE_SIZE as real) < p < TILE_SIZE as real
    ensures ConvertToIntTile(p, p) == (0, 0)
  {
  }

  /** Tiles grow with the coordinate. */
  lemma TileIsMonotonic(p: real, q: real)
    requires p <= q
    ensures ConvertToIntTile(p, 0.0).0 <= ConvertToIntTile(q, 0.0).0
  {
  }

  /** 2 to the power `n`. */
  function Pow2(n: nat): (r: nat)
    ensures r >= 1
  {
    if n == 0 then 1 else 2 * Pow2(n - 1)
  }

  /** The width of the whole map in pixels at a zoom level: TILE_SIZE shifted
      left by the zoom. The program computes it in unsigned 32-bit
      arithmetic, which holds it only up to zoom 23. */
  function DimensionInPixels(zoom: nat): (d: nat)
    requires zoom <= 23
    ensures d == TILE_SIZE * Pow2(zoom) && 0 < d < 0x1_0000_0000
  {
    Pow2Bound(zoom);
    TILE_SIZE * Pow2(zoom)
  }

  lemma Pow2Bound(n: nat)
    requires n <= 23
    ensures Pow2(n) <= 0x80_0000
  {
    Pow2Monotone(n, 23);
    Pow2Of23();
  }

  lemma {:induction false} Pow2Monotone(a: nat, b: nat)
    requires a <= b
    ensures Pow2(a) <= Pow2(b)
  {
    if a < b {
      Pow2Monotone(a, b - 1);
    }
  }

  lemma Pow2Of23()
    ensures Pow2(23) == 0x80_0000
  {
    Pow2Of8();
    Pow2Add(8, 8);
    Pow2Add(16, 7);
    assert Pow2(7) == 128;
  }

  lemma Pow2Of8()
    ensures Pow2(8) == 256
  {
  }

  /** At zoom 24 the width no longer fits in 32 bits. */
  lemma Zoom24Overflows()
    ensures TILE_SIZE * Pow2(24) == 0x1_0000_0000
  {
    Pow2Of23();
    Pow2Add(23, 1);
    assert Pow2(1) == 2;
  }

  lemma {:induction false} Pow2Add(a: nat, b: nat)
    ensures Pow2(a + b) == Pow2(a) * Pow2(b)
  {
    if b > 0 {
      Pow2Add(a, b - 1);
      assert Pow2(a + b) == 2 * Pow2(a + b - 1);
    }
  }

  /** A point of the unit square scaled to the map at a zoom level (the
      per-zoom node coordinates). */
  function Scale(p: Point, dimension: nat): Point
  {
    (p.0 * dimension as real, p.1 * dimension as real)
  }

  /** A point of the unit square falls, at every zoom, in one of the
      2^zoom x 2^zoom tiles of the map (the map is TILE_SIZE * 2^zoom
      pixels wide, as DimensionInPixels states). */
  lemma UnitSquareTileInRange(p: Point, n: nat)
    requires 0.0 <= p.0 < 1.0 && 0.0 <= p.1 < 1.0 && n > 0
    ensures var t := TileOf(Scale(p, TILE_SIZE * n));
            0 <= t.0 < n && 0 <= t.1 < n
  {
    var d := TILE_SIZE * n;
    var q := Scale(p, d);
    ScaledInside(p, d);
    TileAxes(q);
    TileBelow(q.0, n, d);
    TileBelow(q.1, n, d);
  }

  /** A coordinate within a map `n` tiles wide is in one of its tiles. */
  lemma TileBelow(x: real, n: nat, d: nat)
    requires d == TILE_SIZE * n && 0.0 <= x < d as real
    ensures 0 <= ConvertToIntTile(x, 0.0).0 < n
  {
    var t := ConvertToIntTile(x, 0.0).0;
    assert (t * 256) as real <= x;
  }

  /** Each axis of a tile depends on that axis of the point alone. */
  lemma TileAxes(q: Point)
    ensures TileOf(q).0 == ConvertToIntTile(q.0, 0.0).0
    ensures TileOf(q).1 == ConvertToIntTile(q.1, 0.0).0
  {
  }

  /** A point of the unit square, the far edges left out, scales to a point
      inside the map. */
  lemma ScaledInside(p: Point, d: nat)
    requires 0.0 <= p.0 < 1.0 && 0.0 <= p.1 < 1.0 && d > 0
    ensures 0.0 <= Scale(p, d).0 < d as real && 0.0 <= Scale(p, d).1 < d as real
  {
    var w := d as real;
    assert Scale(p, d).0 == p.0 * w && Scale(p, d).1 == p.1 * w;
    FractionBelow(p.0, w);
    FractionBelow(p.1, w);
  }

  lemma FractionBelow(a: real, w: real)
    requires 0.0 <= a < 1.0 && w > 0.0
    ensures 0.0 <= a * w < w
  {
    assert w - a * w == (1.0 - a) * w;
  }

  /** Doubling the map width splits every tile into two per axis: the tile
      of a point on the doubled map is twice its tile on the original map, or
      its neighbour away from zero (truncation keeps tile 0 as the origin on
      both sides). */
  lemma DoublingSplitsTile(p: Point, d: nat)
    ensures var t := TileOf(Scale(p, d));
            var u := TileOf(Scale(p, 2 * d));
            && (p.0 >= 0.0 ==> u.0 == 2 * t.0 || u.0 == 2 * t.0 + 1)
            && (p.0 < 0.0 ==> u.0 == 2 * t.0 || u.0 == 2 * t.0 - 1)
            && (p.1 >= 0.0 ==> u.1 == 2 * t.1 || u.1 == 2 * t.1 + 1)
            && (p.1 < 0.0 ==> u.1 == 2 * t.1 || u.1 == 2 * t.1 - 1)
  {
    var q := Scale(p, d);
    ScaleDoubles(p, d);
    ScaleKeepsSign(p, d);
    TileAxes(q);
    TileAxes(Scale(p, 2 * d));
    DoubledTile(q.0);
    DoubledTile(q.1);
  }

  /** Scaling by a width keeps the sign of each coordinate. */
  lemma ScaleKeepsSign(p: Point, d: nat)
    ensures (p.0 >= 0.0 ==> Scale(p, d).0 >= 0.0) && (p.0 < 0.0 ==> Scale(p, d).0 <= 0.0)
    ensures (p.1 >= 0.0 ==> Scale(p, d).1 >= 0.0) && (p.1 < 0.0 ==> Scale(p, d).1 <= 0.0)
  {
    var w := d as real;
    assert Scale(p, d).0 == p.0 * w && Scale(p, d).1 == p.1 * w;
    SignOfProduct(p.0, w);
    SignOfProduct(p.1, w);
  }

  lemma SignOfProduct(a: real, w: real)
    requires w >= 0.0
    ensures a >= 0.0 ==> a * w >= 0.0
    ensures a < 0.0 ==> a * w <= 0.0
  {
    if a < 0.0 {
      assert a * w == -((-a) * w);
    }
  }

  /** The per-zoom node positions: a point of the unit square lies in one of
      the 2^zoom tiles per axis of its zoom, and its tile at zoom + 1 is one
      of the four tiles its tile at zoom splits into. */
  lemma ZoomInSplitsTile(p: Point, zoom: nat)
    requires zoom < 23
    requires 0.0 <= p.0 < 1.0 && 0.0 <= p.1 < 1.0
    ensures var t := TileOf(Scale(p, DimensionInPixels(zoom)));
            0 <= t.0 < Pow2(zoom) && 0 <= t.1 < Pow2(zoom)
    ensures var t := TileOf(Scale(p, DimensionInPixels(zoom)));
            var u := TileOf(Scale(p, DimensionInPixels(zoom + 1)));
            (u.0 == 2 * t.0 || u.0 == 2 * t.0 + 1) && (u.1 == 2 * t.1 || u.1 == 2 * t.1 + 1)
  {
    var n := Pow2(zoom);
    assert Pow2(zoom + 1) == 2 * n;
    UnitSquareTileInRange(p, n);
    DoublingSplitsTile(p, DimensionInPixels(zoom));
  }

  /** Scaling by twice the width doubles both coordinates. */
  lemma ScaleDoubles(p: Point, d: nat)
    ensures Scale(p, 2 * d).0 == 2.0 * Scale(p, d).0
    ensures Scale(p, 2 * d).1 == 2.0 * Scale(p, d).1
  {
  }

  /** One axis of DoublingSplitsTile: doubling a coordinate. */
  lemma DoubledTile(x: real)
    ensures var t := ConvertToIntTile(x, 0.0).0;
            var u := ConvertToIntTile(2.0 * x, 0.0).0;
            && (x >= 0.0 ==> u == 2 * t || u == 2 * t + 1)
            && (x <= 0.0 ==> u == 2 * t || u == 2 * t - 1)
  {
    var t := ConvertToIntTile(x, 0.0).0;
    var u := ConvertToIntTile(2.0 * x, 0.0).0;
    if x >= 0.0 {
      assert (t * 256) as real <= x < (t * 256 + 256) as real;
      assert (u * 256) as real <= 2.0 * x < (u * 256 + 256) as real;
    } else {
      assert (t * 256 - 256) as real < x <= (t * 256) as real;
      assert (u * 256 - 256) as real < 2.0 * x <= (u * 256) as real;
    }
  }
}
