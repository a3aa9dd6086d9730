/**
 * Tile-grid planning: from the two pixel corners of the requested bounding box
 * to the range of whole tiles that covers it, the size of the canvas those
 * tiles are stitched into, and the crop box that cuts the requested rectangle
 * back out of that canvas.
 *
 * The corners are absolute pixel coordinates at one level of detail, already
 * clamped to the world map by the projection.
 */
module GridPlanner {
  import opened TileMath

  /** An axis-aligned rectangle of absolute pixel coordinates, corners included. */
  datatype PixelRect = PixelRect(xMin: int, yMin: int, xMax: int, yMax: int)

  /** An inclusive range of tile indices: top-left tile (swX, swY), bottom-right tile (neX, neY). */
  datatype TileRange = TileRange(swX: int, swY: int, neX: int, neY: int)

  /** A crop box in canvas pixels; `right` and `bottom` are exclusive, as in PIL. */
  datatype CropBox = CropBox(left: int, top: int, right: int, bottom: int)

  /** Everything the script derives from the two corners before fetching any tile. */
  datatype GridPlan = GridPlan(pixels: PixelRect, tiles: TileRange, canvasWidth: int, canvasHeight: int, crop: CropBox)

  function Min(a: int, b: int): int
  {
    if a <= b then a else b
  }

  function Max(a: int, b: int): int
  {
    if a >= b then a else b
  }

  /**
   * The element-wise minimum and maximum of the two corners. The "south-west"
   * corner is not the top-left pixel (pixel y grows southwards), so the
   * rectangle is rebuilt from both corners.
   */
  function PixelBounds(pixelSWX: int, pixelSWY: int, pixelNEX: int, pixelNEY: int): (r: PixelRect)
    ensures r.xMin <= pixelSWX && r.xMin <= pixelNEX && (r.xMin == pixelSWX || r.xMin == pixelNEX)
    ensures r.xMax >= pixelSWX && r.xMax >= pixelNEX && (r.xMax == pixelSWX || r.xMax == pixelNEX)
    ensures r.yMin <= pixelSWY && r.yMin <= pixelNEY && (r.yMin == pixelSWY || r.yMin == pixelNEY)
    ensures r.yMax >= pixelSWY && r.yMax >= pixelNEY && (r.yMax == pixelSWY || r.yMax == pixelNEY)
  {
    PixelRect(Min(pixelSWX, pixelNEX), Min(pixelSWY, pixelNEY), Max(pixelSWX, pixelNEX), Max(pixelSWY, pixelNEY))
  }

  /**
   * The planning steps of the script: the pixel rectangle, the tiles of its
   * top-left and bottom-right corners, a canvas of 256 pixels per tile on each
   * axis, and the rectangle taken relative to the top-left tile's corner pixel.
   */
  function PlanGrid(pixelSWX: int, pixelSWY: int, pixelNEX: int, pixelNEY: int, levelOfDetail: nat): (plan: GridPlan)
    requires InWorld(pixelSWX, levelOfDetail) && InWorld(pixelSWY, levelOfDetail)
    requires InWorld(pixelNEX, levelOfDetail) && InWorld(pixelNEY, levelOfDetail)
    // the rectangle is the one spanned by the two corners
    ensures plan.pixels == PixelBounds(pixelSWX, pixelSWY, pixelNEX, pixelNEY)
    // the tile range is never empty and only names tiles that exist at this level
    ensures 0 <= plan.tiles.swX <= plan.tiles.neX < Pow2(levelOfDetail)
    ensures 0 <= plan.tiles.swY <= plan.tiles.neY < Pow2(levelOfDetail)
    // the corner tiles hold the corner pixels: the range covers the rectangle and is the smallest that does
    ensures plan.tiles.swX * TileSize <= plan.pixels.xMin < plan.tiles.swX * TileSize + TileSize
    ensures plan.tiles.swY * TileSize <= plan.pixels.yMin < plan.tiles.swY * TileSize + TileSize
    ensures plan.tiles.neX * TileSize <= plan.pixels.xMax < plan.tiles.neX * TileSize + TileSize
    ensures plan.tiles.neY * TileSize <= plan.pixels.yMax < plan.tiles.neY * TileSize + TileSize
    // one tile's worth of canvas per tile in the range
    ensures plan.canvasWidth == (plan.tiles.neX - plan.tiles.swX + 1) * TileSize
    ensures plan.canvasHeight == (plan.tiles.neY - plan.tiles.swY + 1) * TileSize
    // the crop box lies inside the canvas ...
    ensures 0 <= plan.crop.left <= plan.crop.right < plan.canvasWidth
    ensures 0 <= plan.crop.top <= plan.crop.bottom < plan.canvasHeight
    // ... is the rectangle seen from the canvas origin ...
    ensures plan.crop.left + plan.tiles.swX * TileSize == plan.pixels.xMin
    ensures plan.crop.top + plan.tiles.swY * TileSize == plan.pixels.yMin
    // ... and has the rectangle's width and height
    ensures plan.crop.right - plan.crop.left == plan.pixels.xMax - plan.pixels.xMin
    ensures plan.crop.bottom - plan.crop.top == plan.pixels.yMax - plan.pixels.yMin
  {
    var pixels := PixelBounds(pixelSWX, pixelSWY, pixelNEX, pixelNEY);
    var (tileSWX, tileSWY) := PixelXYToTileXY(pixels.xMin, pixels.yMin);
    var (tileNEX, tileNEY) := PixelXYToTileXY(pixels.xMax, pixels.yMax);
    TileOfWorldPixel(pixels.xMax, levelOfDetail);
    TileOfWorldPixel(pixels.yMax, levelOfDetail);
    var width := (tileNEX - tileSWX + 1) * TileSize;
    var height := (tileNEY - tileSWY + 1) * TileSize;
    var (pixelNWX, pixelNWY) := TileXYToPixelXY(tileSWX, tileSWY);
    var crop := CropBox(pixels.xMin - pixelNWX, pixels.yMin - pixelNWY, pixels.xMax - pixelNWX, pixels.yMax - pixelNWY);
    GridPlan(pixels, TileRange(tileSWX, tileSWY, tileNEX, tileNEY), width, height, crop)
  }

  /**
   * Every pixel of the rectangle lies in a tile of the planned range, at the
   * canvas position given by its offset from the top-left tile's corner.
   */
  lemma PlanCoversRectangle(pixelSWX: int, pixelSWY: int, pixelNEX: int, pixelNEY: int, levelOfDetail: nat, px: int, py: int)
    requires InWorld(pixelSWX, levelOfDetail) && InWorld(pixelSWY, levelOfDetail)
    requires InWorld(pixelNEX, levelOfDetail) && InWorld(pixelNEY, levelOfDetail)
    requires var r := PixelBounds(pixelSWX, pixelSWY, pixelNEX, pixelNEY);
             r.xMin <= px <= r.xMax && r.yMin <= py <= r.yMax
    ensures var plan := PlanGrid(pixelSWX, pixelSWY, pixelNEX, pixelNEY, levelOfDetail);
            var t := plan.tiles;
            && t.swX <= px / TileSize <= t.neX && t.swY <= py / TileSize <= t.neY
            && 0 <= px - t.swX * TileSize < plan.canvasWidth
            && 0 <= py - t.swY * TileSize < plan.canvasHeight
  {
    var plan := PlanGrid(pixelSWX, pixelSWY, pixelNEX, pixelNEY, levelOfDetail);
    var t := plan.tiles;
    BlockIndexBetween(px, t.swX, t.neX);
    BlockIndexBetween(py, t.swY, t.neY);
  }

  /** A pixel between the corner pixels of two tiles lies in a tile between them. */
  lemma BlockIndexBetween(p: int, lo: int, hi: int)
    requires lo * TileSize <= p < hi * TileSize + TileSize
    ensures lo <= p / TileSize <= hi
  {
    var k := p / TileSize;
    assert k * TileSize <= p < k * TileSize + TileSize;
  }
}
