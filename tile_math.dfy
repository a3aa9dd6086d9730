/**
 * The integer part of the Bing Maps tile system as ported in `TileSystem`:
 * clamping, the size of the world map at a level of detail, the last
 * (scaling and clamping) step of the lat/long -> pixel projection, and the
 * conversions between absolute pixel coordinates and tile indices.
 *
 * The trigonometric part of the projection is not modelled; the normalized
 * Mercator coordinate it produces is an input of `ScaleToPixel`.
 */
module TileMath {

  /** Side length, in pixels, of one tile. */
  const TileSize: nat := 256

  /** 2^n, the number of tiles along one axis at level of detail n. */
  function Pow2(n: nat): (r: nat)
    ensures r >= 1
  {
    if n == 0 then 1 else 2 * Pow2(n - 1)
  }

  /** Python's `v << n` on a non-negative integer (no width limit). */
  function ShiftLeft(v: nat, n: nat): nat
  {
    if n == 0 then v else 2 * ShiftLeft(v, n - 1)
  }

  lemma {:induction false} ShiftLeftIsScaling(v: nat, n: nat)
    ensures ShiftLeft(v, n) == v * Pow2(n)
  {
    if n > 0 {
      ShiftLeftIsScaling(v, n - 1);
      calc {
        ShiftLeft(v, n);
        2 * ShiftLeft(v, n - 1);
        2 * (v * Pow2(n - 1));
        v * (2 * Pow2(n - 1));
        v * Pow2(n);
      }
    }
  }

  /** `min(max(n, minValue), maxValue)`. */
  function Clip(n: real, minValue: real, maxValue: real): (r: real)
    ensures r <= maxValue
    ensures minValue <= maxValue ==> minValue <= r
    ensures minValue <= n <= maxValue ==> r == n
    ensures r == n || r == minValue || r == maxValue
  {
    var lower := if n >= minValue then n else minValue;
    if lower <= maxValue then lower else maxValue
  }

  /** Clamping a value that is already clamped changes nothing. */
  lemma ClipIdempotent(n: real, minValue: real, maxValue: real)
    ensures Clip(Clip(n, minValue, maxValue), minValue, maxValue) == Clip(n, minValue, maxValue)
  {
  }

  /** Clamping is monotone in the clamped value. */
  lemma ClipMonotone(n: real, m: real, minValue: real, maxValue: real)
    requires n <= m
    ensures Clip(n, minValue, maxValue) <= Clip(m, minValue, maxValue)
  {
  }

  /** `256 << levelOfDetail`: the side of the world map in pixels. */
  function MapSize(levelOfDetail: nat): (r: nat)
    ensures r == 256 * Pow2(levelOfDetail)
  {
    ShiftLeftIsScaling(256, levelOfDetail);
    ShiftLeft(256, levelOfDetail)
  }

  /** Each level of detail doubles the side of the world map. */
  lemma MapSizeDoubles(levelOfDetail: nat)
    ensures MapSize(levelOfDetail + 1) == 2 * MapSize(levelOfDetail)
  {
  }

  /** An absolute pixel coordinate on the world map at `levelOfDetail`. */
  predicate InWorld(p: int, levelOfDetail: nat)
  {
    0 <= p < MapSize(levelOfDetail)
  }

  /**
   * Clamps a scaled coordinate to [0, mapSize - 1] and floors it, as the last
   * step of the lat/long-to-pixel projection does on each axis.
   */
  function ClampToPixel(v: real, mapSize: nat): (p: int)
    requires mapSize >= 1
    ensures 0 <= p < mapSize
    ensures 0.0 <= v <= mapSize as real - 1.0 ==> p as real <= v < p as real + 1.0
  {
    Clip(v, 0.0, mapSize as real - 1.0).Floor
  }

  /** `x * mapSize + 0.5` on one axis: the normalized coordinate scaled to the map and shifted by half a pixel. */
  function ScaledCoordinate(t: real, levelOfDetail: nat): real
  {
    t * (MapSize(levelOfDetail) as real) + 0.5
  }

  /**
   * The last step of `LatLongToPixelXY` on one axis: the normalized coordinate
   * `t` (in [0, 1] for points on the map) is scaled by the map size, shifted by
   * half a pixel, clamped to [0, mapSize - 1] and floored.
   */
  function ScaleToPixel(t: real, levelOfDetail: nat): (p: int)
    ensures InWorld(p, levelOfDetail)
  {
    ClampToPixel(ScaledCoordinate(t, levelOfDetail), MapSize(levelOfDetail))
  }

  /** Moving east (or south) never moves the pixel west (or north). */
  lemma ScaleToPixelMonotone(t: real, u: real, levelOfDetail: nat)
    requires t <= u
    ensures ScaleToPixel(t, levelOfDetail) <= ScaleToPixel(u, levelOfDetail)
  {
    ScaledCoordinateMonotone(t, u, levelOfDetail);
    ClampToPixelMonotone(ScaledCoordinate(t, levelOfDetail), ScaledCoordinate(u, levelOfDetail), MapSize(levelOfDetail));
  }

  /** The scaled coordinate is monotone in the normalized coordinate. */
  lemma ScaledCoordinateMonotone(t: real, u: real, levelOfDetail: nat)
    requires t <= u
    ensures ScaledCoordinate(t, levelOfDetail) <= ScaledCoordinate(u, levelOfDetail)
  {
    var m := MapSize(levelOfDetail) as real;
    assert u * m - t * m == (u - t) * m;
  }

  /** Clamping and flooring preserves `<=`. */
  lemma ClampToPixelMonotone(v: real, w: real, mapSize: nat)
    requires v <= w && mapSize >= 1
    ensures ClampToPixel(v, mapSize) <= ClampToPixel(w, mapSize)
  {
    ClipMonotone(v, w, 0.0, mapSize as real - 1.0);
  }

  /**
   * One more level of detail puts a fixed point at twice its pixel coordinate,
   * up to one pixel of rounding, even where clamping applies.
   */
  lemma ScaleToPixelAtNextLevel(t: real, levelOfDetail: nat)
    ensures -1 <= ScaleToPixel(t, levelOfDetail + 1) - 2 * ScaleToPixel(t, levelOfDetail) <= 1
  {
    ScaledCoordinateAtNextLevel(t, levelOfDetail);
    MapSizeDoubles(levelOfDetail);
    ClampedFloorsAtDoubleScale(ScaledCoordinate(t, levelOfDetail), MapSize(levelOfDetail));
  }

  /** At the next level the scaled coordinate `a` becomes `2a - 0.5`. */
  lemma ScaledCoordinateAtNextLevel(t: real, levelOfDetail: nat)
    ensures ScaledCoordinate(t, levelOfDetail + 1) == 2.0 * ScaledCoordinate(t, levelOfDetail) - 0.5
  {
    var m := MapSize(levelOfDetail);
    MapSizeDoubles(levelOfDetail);
    assert (MapSize(levelOfDetail + 1) as real) == 2.0 * (m as real);
  }

  /**
   * The arithmetic behind `ScaleToPixelAtNextLevel`: `a` is the shifted
   * coordinate on a map of side `m`; on a map of side `2m` it becomes `2a - 0.5`.
   */
  lemma ClampedFloorsAtDoubleScale(a: real, m: nat)
    requires m >= 1
    ensures -1 <= ClampToPixel(2.0 * a - 0.5, 2 * m) - 2 * ClampToPixel(a, m) <= 1
  {
    var c := Clip(a, 0.0, m as real - 1.0);
    var d := Clip(2.0 * a - 0.5, 0.0, (2 * m) as real - 1.0);
    if a < 0.0 {
      assert c == 0.0 && d == 0.0;
    } else if a > m as real - 1.0 {
      assert c == m as real - 1.0;
      assert c.Floor == m - 1;
      assert (2 * m) as real - 2.5 <= d <= (2 * m) as real - 1.0;
    } else {
      assert c == a;
      var f := a.Floor;
      assert f as real <= a < f as real + 1.0;
      assert 2.0 * (f as real) - 1.5 <= d < 2.0 * (f as real) + 1.5;
    }
  }

  /** `PixelXYToTileXY`: floor division of each axis by the tile size. */
  function PixelXYToTileXY(pixelX: int, pixelY: int): (tile: (int, int))
    ensures tile.0 * TileSize <= pixelX < tile.0 * TileSize + TileSize
    ensures tile.1 * TileSize <= pixelY < tile.1 * TileSize + TileSize
  {
    (pixelX / TileSize, pixelY / TileSize)
  }

  /** `TileXYToPixelXY`: the pixel at the top-left corner of a tile. */
  function TileXYToPixelXY(tileX: int, tileY: int): (pixel: (int, int))
    ensures pixel.0 % TileSize == 0 && pixel.1 % TileSize == 0
    ensures pixel.0 / TileSize == tileX && pixel.1 / TileSize == tileY
  {
    (tileX * TileSize, tileY * TileSize)
  }

  /**
   * A pixel lies in the tile it is mapped to: the tile's corner pixel is at
   * most 255 pixels up and left of it.
   */
  lemma PixelWithinItsTile(pixelX: int, pixelY: int)
    ensures var tile := PixelXYToTileXY(pixelX, pixelY);
            var corner := TileXYToPixelXY(tile.0, tile.1);
            corner.0 <= pixelX < corner.0 + TileSize && corner.1 <= pixelY < corner.1 + TileSize
  {
  }

  /** Tile -> corner pixel -> tile is the identity. */
  lemma TileCornerRoundTrip(tileX: int, tileY: int)
    ensures var corner := TileXYToPixelXY(tileX, tileY);
            PixelXYToTileXY(corner.0, corner.1) == (tileX, tileY)
  {
  }

  /** A pixel on the world map falls in a tile that exists at that level. */
  lemma TileOfWorldPixel(p: int, levelOfDetail: nat)
    requires InWorld(p, levelOfDetail)
    ensures 0 <= p / TileSize < Pow2(levelOfDetail)
  {
    var t := p / TileSize;
    assert t * TileSize <= p < TileSize * Pow2(levelOfDetail);
  }

  /** The block-index facts the stitcher needs: pixel `p` of block `k`. */
  lemma InBlock(p: int, k: int)
    requires k * TileSize <= p < k * TileSize + TileSize
    ensures p / TileSize == k && p % TileSize == p - k * TileSize
  {
  }

  /** Shifting a pixel by whole tiles shifts its tile index and keeps its offset. */
  lemma ShiftByTiles(p: int, t: int)
    ensures (p - t * TileSize) / TileSize + t == p / TileSize
    ensures (p - t * TileSize) % TileSize == p % TileSize
  {
    var q := p / TileSize;
    InBlock(p - t * TileSize, q - t);
  }
}
