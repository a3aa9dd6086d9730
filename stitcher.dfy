/**
 * Retrieval and stitching: each row of the planned tile range is fetched tile
 * by tile (by quadkey) and pasted into a row image, each row image is pasted
 * into the canvas, and the canvas is cropped to the requested rectangle.
 *
 * The tile server is a parameter: a total function from quadkey to the decoded
 * tile it serves.
 */
module Stitcher {
  import opened TileMath
  import opened QuadKeys
  import opened GridPlanner
  import opened Raster

  /** The tile server: the decoded 256x256 tile it serves for each quadkey. */
  type TileSource = seq<char> -> TileImage

  /**
   * The quadkey encoder of the tile system the script holds in its global
   * `tileSystem`; `RetrieveAerialImage` passes `TileXYToQuadKey`.
   */
  type Encoder = (nat, nat, nat) -> seq<char>

  /** Pixel (x, y) of tile (tileX, tileY) as served under that tile's quadkey. */
  function TilePixel(fetch: TileSource, encode: Encoder, tileX: nat, tileY: nat, levelOfDetail: nat, x: int, y: int): Rgb
  {
    fetch(encode(tileX, tileY, levelOfDetail))(x, y)
  }

  /** Absolute pixel (px, py) of the world map: pixel (px mod 256, py mod 256) of tile (px / 256, py / 256). */
  function WorldPixel(fetch: TileSource, encode: Encoder, levelOfDetail: nat, px: nat, py: nat): Rgb
  {
    TilePixel(fetch, encode, px / TileSize, py / TileSize, levelOfDetail, px % TileSize, py % TileSize)
  }

  /** The number of values in Python's `range(start, end + 1)`. */
  function RangeCount(start: int, end: int): nat
  {
    if end >= start then end - start + 1 else 0
  }

  /** The canvas pixel at (cx, cy) of a grid whose top-left tile is (tileSWX, tileSWY). */
  function GridPixel(fetch: TileSource, encode: Encoder, tileSWX: nat, tileSWY: nat, levelOfDetail: nat, cx: nat, cy: nat): Rgb
  {
    TilePixel(fetch, encode, tileSWX + cx / TileSize, tileSWY + cy / TileSize, levelOfDetail, cx % TileSize, cy % TileSize)
  }

  /**
   * `retrieveAndStitch`: fetches tiles tileXStart..tileXEnd of row `tileY` and
   * pastes tile number i at (i * 256, 0) of a new image one tile high. Pixel
   * (x, y) of the result is pixel (x mod 256, y) of tile tileXStart + x / 256.
   */
  method RetrieveAndStitch(fetch: TileSource, encode: Encoder, tileXStart: nat, tileXEnd: int, tileY: nat, levelOfDetail: nat)
      returns (stitched: array2<Rgb>)
    ensures fresh(stitched)
    ensures stitched.Length0 == RangeCount(tileXStart, tileXEnd) * TileSize && stitched.Length1 == TileSize
    ensures forall x, y :: 0 <= x < stitched.Length0 && 0 <= y < TileSize ==>
              stitched[x, y] == TilePixel(fetch, encode, tileXStart + x / TileSize, tileY, levelOfDetail, x % TileSize, y)
  {
    var count := RangeCount(tileXStart, tileXEnd);
    var images: seq<array2<Rgb>> := [];
    var tileX := tileXStart;
    while tileX < tileXStart + count
      invariant tileXStart <= tileX <= tileXStart + count
      invariant |images| == tileX - tileXStart
      invariant forall k :: 0 <= k < |images| ==> images[k].Length0 == TileSize && images[k].Length1 == TileSize
      invariant forall k, x, y :: 0 <= k < |images| && 0 <= x < TileSize && 0 <= y < TileSize ==>
                  images[k][x, y] == TilePixel(fetch, encode, tileXStart + k, tileY, levelOfDetail, x, y)
    {
      var quadKey := encode(tileX, tileY, levelOfDetail);
      var img := OpenTile(fetch(quadKey));
      images := images + [img];
      tileX := tileX + 1;
    }

    stitched := NewImage(|images| * TileSize, TileSize);
    var i := 0;
    while i < |images|
      invariant 0 <= i <= |images|
      invariant stitched.Length0 == |images| * TileSize && stitched.Length1 == TileSize
      invariant forall k :: 0 <= k < |images| ==> images[k] != stitched
      invariant forall k, x, y :: 0 <= k < |images| && 0 <= x < TileSize && 0 <= y < TileSize ==>
                  images[k][x, y] == TilePixel(fetch, encode, tileXStart + k, tileY, levelOfDetail, x, y)
      invariant forall x, y :: 0 <= x < stitched.Length0 && 0 <= y < TileSize ==>
                  stitched[x, y] == if x < i * TileSize
                                    then TilePixel(fetch, encode, tileXStart + x / TileSize, tileY, levelOfDetail, x % TileSize, y)
                                    else Black
    {
      Paste(stitched, images[i], i * TileSize, 0);
      forall x, y | 0 <= x < stitched.Length0 && 0 <= y < TileSize && i * TileSize <= x < i * TileSize + TileSize
        ensures stitched[x, y] == TilePixel(fetch, encode, tileXStart + x / TileSize, tileY, levelOfDetail, x % TileSize, y)
      {
        InBlock(x, i);
      }
      i := i + 1;
    }
  }

  /**
   * The script's row loop: a canvas of (tileNEX - tileSWX + 1) x (tileNEY - tileSWY + 1)
   * tiles, into which the stitched row of tile row `i` is pasted at
   * (0, (i - tileSWY) * 256). Every canvas pixel ends up holding the pixel of
   * its own tile at its own offset within that tile.
   */
  method StitchGrid(fetch: TileSource, encode: Encoder, tileSWX: nat, tileSWY: nat, tileNEX: int, tileNEY: int, levelOfDetail: nat)
      returns (canvas: array2<Rgb>)
    requires tileSWX <= tileNEX + 1 && tileSWY <= tileNEY + 1
    ensures fresh(canvas)
    ensures canvas.Length0 == (tileNEX - tileSWX + 1) * TileSize
    ensures canvas.Length1 == (tileNEY - tileSWY + 1) * TileSize
    ensures forall cx, cy :: 0 <= cx < canvas.Length0 && 0 <= cy < canvas.Length1 ==>
              canvas[cx, cy] == GridPixel(fetch, encode, tileSWX, tileSWY, levelOfDetail, cx, cy)
  {
    canvas := NewImage((tileNEX - tileSWX + 1) * TileSize, (tileNEY - tileSWY + 1) * TileSize);
    var i: int := tileSWY;
    while i <= tileNEY
      invariant tileSWY <= i <= tileNEY + 1
      invariant canvas.Length0 == (tileNEX - tileSWX + 1) * TileSize
      invariant canvas.Length1 == (tileNEY - tileSWY + 1) * TileSize
      invariant forall cx, cy :: 0 <= cx < canvas.Length0 && 0 <= cy < canvas.Length1 ==>
                  canvas[cx, cy] == if cy < (i - tileSWY) * TileSize
                                    then GridPixel(fetch, encode, tileSWX, tileSWY, levelOfDetail, cx, cy)
                                    else Black
    {
      var row := RetrieveAndStitch(fetch, encode, tileSWX, tileNEX, i, levelOfDetail);
      var offset := (i - tileSWY) * TileSize;
      Paste(canvas, row, 0, offset);
      forall cx, cy | 0 <= cx < canvas.Length0 && offset <= cy < offset + TileSize
        ensures canvas[cx, cy] == GridPixel(fetch, encode, tileSWX, tileSWY, levelOfDetail, cx, cy)
      {
        InBlock(cy, i - tileSWY);
      }
      i := i + 1;
    }
  }

  /**
   * Reading a stitched grid at the offset of the grid's corner shows the world
   * map: if every canvas pixel is its grid pixel, and the image is the canvas
   * window at (left, top), which is world pixel (xMin, yMin), then the image
   * shows the world map from (xMin, yMin) on.
   */
  lemma WindowOfGridShowsWorld(fetch: TileSource, encode: Encoder, levelOfDetail: nat, canvas: array2<Rgb>, image: array2<Rgb>,
                               tileSWX: nat, tileSWY: nat, left: int, top: int, xMin: nat, yMin: nat)
    requires left + tileSWX * TileSize == xMin && top + tileSWY * TileSize == yMin
    requires 0 <= left && left + image.Length0 <= canvas.Length0
    requires 0 <= top && top + image.Length1 <= canvas.Length1
    requires forall cx, cy :: 0 <= cx < canvas.Length0 && 0 <= cy < canvas.Length1 ==>
               canvas[cx, cy] == GridPixel(fetch, encode, tileSWX, tileSWY, levelOfDetail, cx, cy)
    requires forall i, j :: 0 <= i < image.Length0 && 0 <= j < image.Length1 ==>
               image[i, j] == if 0 <= left + i < canvas.Length0 && 0 <= top + j < canvas.Length1 then canvas[left + i, top + j] else Black
    ensures forall i, j :: 0 <= i < image.Length0 && 0 <= j < image.Length1 ==>
              image[i, j] == WorldPixel(fetch, encode, levelOfDetail, xMin + i, yMin + j)
  {
    forall i, j | 0 <= i < image.Length0 && 0 <= j < image.Length1
      ensures image[i, j] == WorldPixel(fetch, encode, levelOfDetail, xMin + i, yMin + j)
    {
      assert image[i, j] == canvas[left + i, top + j];
      GridPixelIsWorldPixel(fetch, encode, tileSWX, tileSWY, levelOfDetail, left + i, top + j, xMin + i, yMin + j);
    }
  }

  /** The grid pixel at a world pixel's offset from the grid's top-left tile corner is that world pixel. */
  lemma GridPixelIsWorldPixel(fetch: TileSource, encode: Encoder, tileSWX: nat, tileSWY: nat, levelOfDetail: nat,
                              cx: nat, cy: nat, px: nat, py: nat)
    requires cx + tileSWX * TileSize == px && cy + tileSWY * TileSize == py
    ensures GridPixel(fetch, encode, tileSWX, tileSWY, levelOfDetail, cx, cy) == WorldPixel(fetch, encode, levelOfDetail, px, py)
  {
    ShiftByTiles(px, tileSWX);
    ShiftByTiles(py, tileSWY);
  }

  /**
   * The stitching and cropping steps of the retrieval, for a planned grid:
   * stitch tiles tileSWX..tileNEX by tileSWY..tileNEY and crop the window whose
   * top-left pixel is world pixel (xMin, yMin). Each pixel of the result is the
   * world-map pixel it is meant to show.
   */
  method StitchAndCrop(fetch: TileSource, encode: Encoder, tiles: TileRange, crop: CropBox, levelOfDetail: nat, xMin: nat, yMin: nat)
      returns (image: array2<Rgb>)
    requires 0 <= tiles.swX <= tiles.neX && 0 <= tiles.swY <= tiles.neY
    requires 0 <= crop.left <= crop.right < (tiles.neX - tiles.swX + 1) * TileSize
    requires 0 <= crop.top <= crop.bottom < (tiles.neY - tiles.swY + 1) * TileSize
    requires crop.left + tiles.swX * TileSize == xMin && crop.top + tiles.swY * TileSize == yMin
    ensures fresh(image)
    ensures image.Length0 == crop.right - crop.left && image.Length1 == crop.bottom - crop.top
    ensures forall i, j :: 0 <= i < image.Length0 && 0 <= j < image.Length1 ==>
              image[i, j] == WorldPixel(fetch, encode, levelOfDetail, xMin + i, yMin + j)
  {
    var swX: nat, swY: nat := tiles.swX, tiles.swY;
    var left, top, right, bottom := crop.left, crop.top, crop.right, crop.bottom;
    var stitched := StitchGrid(fetch, encode, swX, swY, tiles.neX, tiles.neY, levelOfDetail);
    image := Crop(stitched, left, top, right, bottom);
    WindowOfGridShowsWorld(fetch, encode, levelOfDetail, stitched, image, swX, swY, left, top, xMin, yMin);
  }

  /**
   * The whole retrieval from the two pixel corners on, for any quadkey encoder: plan
   * the grid, stitch it, and crop it. The result is the requested rectangle of
   * the world map: its size is the rectangle's width and height, and its pixel
   * (i, j) is the world-map pixel (xMin + i, yMin + j).
   */
  method RetrieveWindow(fetch: TileSource, encode: Encoder, pixelSWX: int, pixelSWY: int, pixelNEX: int, pixelNEY: int,
                        levelOfDetail: nat)
      returns (image: array2<Rgb>)
    requires InWorld(pixelSWX, levelOfDetail) && InWorld(pixelSWY, levelOfDetail)
    requires InWorld(pixelNEX, levelOfDetail) && InWorld(pixelNEY, levelOfDetail)
    ensures fresh(image)
    ensures image.Length0 == Max(pixelSWX, pixelNEX) - Min(pixelSWX, pixelNEX)
    ensures image.Length1 == Max(pixelSWY, pixelNEY) - Min(pixelSWY, pixelNEY)
    ensures forall i, j :: 0 <= i < image.Length0 && 0 <= j < image.Length1 ==>
              image[i, j] == WorldPixel(fetch, encode, levelOfDetail, Min(pixelSWX, pixelNEX) + i, Min(pixelSWY, pixelNEY) + j)
  {
    var plan := PlanGrid(pixelSWX, pixelSWY, pixelNEX, pixelNEY, levelOfDetail);
    var xMin, yMin := Min(pixelSWX, pixelNEX), Min(pixelSWY, pixelNEY);
    assert plan.pixels.xMin == xMin && plan.pixels.yMin == yMin;
    image := StitchAndCrop(fetch, encode, plan.tiles, plan.crop, levelOfDetail, xMin, yMin);
  }

  /**
   * The script's retrieval with the tile system's own encoder: every tile is
   * requested under the quadkey `TileXYToQuadKey` gives it.
   */
  method RetrieveAerialImage(fetch: TileSource, pixelSWX: int, pixelSWY: int, pixelNEX: int, pixelNEY: int, levelOfDetail: nat)
      returns (image: array2<Rgb>)
    requires InWorld(pixelSWX, levelOfDetail) && InWorld(pixelSWY, levelOfDetail)
    requires InWorld(pixelNEX, levelOfDetail) && InWorld(pixelNEY, levelOfDetail)
    ensures fresh(image)
    ensures image.Length0 == Max(pixelSWX, pixelNEX) - Min(pixelSWX, pixelNEX)
    ensures image.Length1 == Max(pixelSWY, pixelNEY) - Min(pixelSWY, pixelNEY)
    ensures forall i, j :: 0 <= i < image.Length0 && 0 <= j < image.Length1 ==>
              image[i, j] == WorldPixel(fetch, TileXYToQuadKey, levelOfDetail, Min(pixelSWX, pixelNEX) + i, Min(pixelSWY, pixelNEY) + j)
  {
    image := RetrieveWindow(fetch, TileXYToQuadKey, pixelSWX, pixelSWY, pixelNEX, pixelNEY, levelOfDetail);
  }
}
