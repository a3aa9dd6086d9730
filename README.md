# Aerial image retrieval: tile addressing, grid planning and stitching

This project is a Dafny model of the aerial-image part of `source/osm_retrieval.py`. That code is a Python
port of the Bing Maps tile system. It turns a latitude/longitude bounding box into absolute pixel
coordinates at a level of detail, then finds the 256x256 tiles that cover the box. It fetches each tile by
its quadkey, pastes the tiles into rows and the rows into one canvas, and crops the box back out.

The model has five modules:

- `TileMath` (`tile_math.dfy`) covers the integer core of `TileSystem`:
  - `Clip`;
  - `MapSize` as `256 << level`;
  - the last scaling/clamping/flooring step of `LatLongToPixelXY`;
  - the pixel/tile conversions.
- `QuadKeys` (`quad_keys.dfy`) models the quadkey encoder and decoder on strings, following Python's own
  steps:
  - `'{0:0{1}b}'.format` becomes `Binary`/`PadBinary`;
  - `zip` + `chain` becomes `Interleave`, which stops at the shorter string;
  - `re.findall('..?')` + `int(_, 2)` becomes `PairsToDigits`;
  - `'{0:02b}'` per digit becomes `DigitsToBits`;
  - the slices `[::2]`/`[1::2]` become `Evens`/`Odds`.

  `FixedBits` (exactly `w` bits) and `Bit` are independent reference definitions. They are used to state
  what the digits mean.
- `GridPlanner` (`grid_planner.dfy`) covers the straight-line planning at lines 112-121, 123 and 128-129:
  the min/max pixel rectangle, the inclusive tile range, the canvas size and the crop box.
- `Raster` (`raster.dfy`) models PIL's `Image.new`, `Image.open`, `paste` and `crop` as operations on
  `array2<Rgb>` indexed `[x, y]`:
  - `paste` clips to the destination;
  - `crop` fills black outside the image and has exclusive right/bottom edges.
- `Stitcher` (`stitcher.dfy`) covers three things. `retrieveAndStitch` and the row loop at 124-126 are
  methods with loop invariants. The whole sequence from the two pixel corners to the cropped image is
  proved to yield exactly the requested window of the world map.

The tile server is a parameter: a total function from quadkey to the 256x256 tile it serves. The script
keeps the level of detail, the pixel corners and the `tileSystem` object in module globals. Here they are
parameters:
- the stitching methods take the quadkey encoder they call;
- `Stitcher.RetrieveAerialImage` passes the modelled `TileXYToQuadKey` as that encoder.

## Model

| member | source | states |
|---|---|---|
| TileMath.Clip | source/osm_retrieval.py:22-23 | the result is at most `maxValue`, at least `minValue` when `minValue <= maxValue`, equals `n` when `n` is in range, and is always one of `n`, `minValue`, `maxValue` |
| TileMath.ClipIdempotent | source/osm_retrieval.py:22-23 | clamping twice is clamping once, for any bounds |
| TileMath.ClipMonotone | source/osm_retrieval.py:22-23 | clamping preserves `<=` |
| TileMath.ShiftLeft | source/osm_retrieval.py:26 | Python's unbounded `v << n`; its meaning, `v * 2^n`, is the contract of `ShiftLeftIsScaling` |
| TileMath.ShiftLeftIsScaling | source/osm_retrieval.py:26 | `v << n` is `v * 2^n` for unbounded integers |
| TileMath.MapSize | source/osm_retrieval.py:25-26 | the map side is `256 * 2^level` pixels |
| TileMath.MapSizeDoubles | source/osm_retrieval.py:25-26 | one more level doubles the map side |
| TileMath.ClampToPixel | source/osm_retrieval.py:44-45 | the clamped floor lies in `[0, mapSize - 1]`, and is the floor of the value whenever the value is already in range |
| TileMath.ScaledCoordinate | source/osm_retrieval.py:44-45 | `x * mapSize + 0.5` on one axis; what it does is stated by `ScaledCoordinateMonotone` and `ScaledCoordinateAtNextLevel` |
| TileMath.ScaleToPixel | source/osm_retrieval.py:43-45 | every normalized coordinate, even one off the map, lands on a pixel of the world map |
| TileMath.ScaleToPixelMonotone | source/osm_retrieval.py:43-45 | the pixel coordinate is monotone in the normalized coordinate |
| TileMath.ScaledCoordinateMonotone | source/osm_retrieval.py:44-45 | `x * mapSize + 0.5` is monotone in `x` |
| TileMath.ClampToPixelMonotone | source/osm_retrieval.py:44-45 | clamping to the map and flooring preserves `<=` |
| TileMath.ScaleToPixelAtNextLevel | source/osm_retrieval.py:43-45 | at the next level a point's pixel is twice its pixel at this level, within one pixel, clamping included |
| TileMath.ScaledCoordinateAtNextLevel | source/osm_retrieval.py:43-45 | at the next level the scaled, shifted coordinate `a` becomes `2a - 0.5` |
| TileMath.ClampedFloorsAtDoubleScale | source/osm_retrieval.py:44-45 | the clamp-and-floor arithmetic behind the previous row, on a map of side `m` against one of side `2m` |
| TileMath.PixelXYToTileXY | source/osm_retrieval.py:57-60 | the tile of a pixel is the one whose 256-pixel span contains it, on each axis |
| TileMath.TileXYToPixelXY | source/osm_retrieval.py:62-65 | a tile's corner pixel is a multiple of 256 whose quotient by 256 is the tile index |
| TileMath.PixelWithinItsTile | source/osm_retrieval.py:57-65 | the corner pixel `c` of a pixel's tile satisfies `c <= p < c + 256` on each axis |
| TileMath.TileCornerRoundTrip | source/osm_retrieval.py:57-65 | tile, then corner pixel, then tile gives back the same tile |
| TileMath.TileOfWorldPixel | source/osm_retrieval.py:57-60 | a pixel of the world map lies in a tile that exists at that level (`< 2^level`) |
| QuadKeys.Binary | source/osm_retrieval.py:68-69 | Python's binary format of a number is a non-empty string of '0'/'1' |
| QuadKeys.PadBinary | source/osm_retrieval.py:68-69 | zero-padding to a width gives a bit string at least that wide, and never an empty one |
| QuadKeys.PadBinaryIsFixedBits | source/osm_retrieval.py:68-69 | for `width >= 1` and `n < 2^width`, the padded form is exactly the `width` low bits of `n` |
| QuadKeys.ParseBinary | source/osm_retrieval.py:76 | `int(_, 2)` of a bit string of length `n` is below `2^n` |
| QuadKeys.Evens | source/osm_retrieval.py:76 | the slice `[::2]` keeps `ceil(len / 2)` characters, and bit strings stay bit strings |
| QuadKeys.Odds | source/osm_retrieval.py:76 | the slice `[1::2]` keeps `floor(len / 2)` characters, and bit strings stay bit strings |
| QuadKeys.ParseFixedBits | source/osm_retrieval.py:76 | `int(_, 2)` of the fixed-width bits of a number that fits gives the number back |
| QuadKeys.FixedBitsOfParse | source/osm_retrieval.py:76 | the bits of a parsed bit string, at the string's own width, are the string |
| QuadKeys.FixedBitsAt | source/osm_retrieval.py:68-69 | character `k` of the fixed-width form is bit `width - 1 - k` (most significant first) |
| QuadKeys.Interleave | source/osm_retrieval.py:71 | `zip` + `chain` yields twice the shorter length, and bit strings stay bit strings |
| QuadKeys.InterleaveAt | source/osm_retrieval.py:71 | characters `2i` and `2i + 1` of the interleaving are character `i` of the Y bits and of the X bits |
| QuadKeys.SplitInterleave | source/osm_retrieval.py:71-76 | the slices `[::2]` and `[1::2]` undo the interleaving of two equally long strings |
| QuadKeys.InterleaveSplit | source/osm_retrieval.py:71-76 | interleaving the two slices of an even-length string rebuilds it |
| QuadKeys.PairsToDigits | source/osm_retrieval.py:72 | reading bit pairs gives `ceil(len / 2)` digits, all in '0'..'3' |
| QuadKeys.PairsToDigitsAt | source/osm_retrieval.py:72 | digit `k` is `2 * bit(2k) + bit(2k + 1)` of the bit string |
| QuadKeys.PairsToDigitsCons | source/osm_retrieval.py:72 | a bit string that starts with a whole pair is read as that pair's digit, then the rest |
| QuadKeys.DigitPair | source/osm_retrieval.py:72-75 | a digit '0'..'3' expands to exactly two bits, whose value is the digit and which read back as the digit |
| QuadKeys.DigitsToBits | source/osm_retrieval.py:75 | the per-digit expansion gives a bit string with at least two bits per digit |
| QuadKeys.PairsOfDigitBits | source/osm_retrieval.py:72-75 | for digits '0'..'3', the expansion has exactly two bits per digit, and reading the pairs back gives the digits |
| QuadKeys.DigitBitsOfPairs | source/osm_retrieval.py:72-75 | expanding the digits read from an even-length bit string gives the string back |
| QuadKeys.TileXYToQuadKey | source/osm_retrieval.py:67-72 | the key is non-empty, has at least `level` digits, all in '0'..'3'; digit by digit it is stated by `QuadKeyDigits`, and decoding it is stated by `QuadKeyRoundTrip` |
| QuadKeys.QuadKeyToTileXY | source/osm_retrieval.py:74-77 | for a key of digits '0'..'3', both tile indices are below `2^len(key)`; that it inverts the encoder is stated by `QuadKeyRoundTrip` and `TileRoundTrip` |
| QuadKeys.DecodeOfPairs | source/osm_retrieval.py:72-77 | decoding the digits read from a non-empty even-length bit string parses the string's odd characters as tileX and its even characters as tileY |
| QuadKeys.DecodeOfInterleave | source/osm_retrieval.py:71-77 | decoding the digits of two interleaved, equally long bit strings parses the second as tileX and the first as tileY |
| QuadKeys.QuadKeyDigits | source/osm_retrieval.py:67-72 | for `level >= 1` and a tile below `2^level`, the key has `level` digits in '0'..'3', and digit `k` is `2 * bit(level-1-k)(tileY) + bit(level-1-k)(tileX)` |
| QuadKeys.QuadKeyRoundTrip | source/osm_retrieval.py:67-77 | decoding the key of a tile that exists at its level gives the tile back |
| QuadKeys.TileRoundTrip | source/osm_retrieval.py:67-77 | for a non-empty key of digits '0'..'3', the decoded tile exists at level `len(key)`, and re-encoding it at that level gives the key back |
| QuadKeys.QuadKeyInjective | source/osm_retrieval.py:67-72 | two tiles of one level with the same key are the same tile |
| QuadKeys.QuadKeyAtLevelZero | source/osm_retrieval.py:67-72 | at level 0 the key of the root tile is "0", not the empty string |
| QuadKeys.UncheckedDigitDecodesOutsideLevel | source/osm_retrieval.py:74-77 | the decoder takes "4" to tile (0, 2), which does not exist at level 1 and whose level-1 key is "2" |
| QuadKeys.DigitFourDecodes | source/osm_retrieval.py:74-77 | the decoder expands '4' to "100" and returns tile (0, 2) |
| QuadKeys.TileZeroTwoEncodes | source/osm_retrieval.py:67-72 | at level 1 the key of tile (0, 2) is "2" |
| QuadKeys.CheckedQuadKeyToTileXY | source/osm_retrieval.py:74-77 | it decodes exactly the non-empty keys of digits '0'..'3', and rejects the rest as an invalid address; the decoded tile exists at the key's level and re-encodes to the key |
| GridPlanner.PixelBounds | source/osm_retrieval.py:112-115 | each bound is one of the two corners and lies on the correct side of both |
| GridPlanner.PlanGrid | source/osm_retrieval.py:112-129 | for corners on the world map: the tile range is never empty and exists at the level; the corner tiles contain the rectangle's corner pixels; the canvas is 256 pixels per tile; the crop box lies inside the canvas, starts at the rectangle's offset from the top-left tile's corner, and has the rectangle's width and height |
| GridPlanner.PlanCoversRectangle | source/osm_retrieval.py:112-129 | every pixel of the rectangle lies in a tile of the range, at a position inside the canvas |
| Raster.NewImage | source/osm_retrieval.py:100 | a fresh all-black image of the requested size |
| Raster.OpenTile | source/osm_retrieval.py:96 | a fresh 256x256 image holding the fetched tile's pixels |
| Raster.Paste | source/osm_retrieval.py:102 | where the pasted image overlaps the destination, the destination takes its pixels; every other pixel is unchanged |
| Raster.Crop | source/osm_retrieval.py:129 | a fresh image (a copy, as PIL's `crop` returns); the window has size `(right - left) x (bottom - top)`; its pixel `(i, j)` is image pixel `(left + i, top + j)`, or black outside the image |
| Stitcher.RangeCount | source/osm_retrieval.py:93 | the number of values in `range(start, end + 1)`; it fixes the row width in the contract of `RetrieveAndStitch` |
| Stitcher.RetrieveAndStitch | source/osm_retrieval.py:91-103 | the row is `count * 256` by 256, and its pixel `(x, y)` is pixel `(x mod 256, y)` of tile `tileXStart + x / 256`, fetched under the key the encoder gives that tile |
| Stitcher.StitchGrid | source/osm_retrieval.py:123-126 | the canvas is a fresh image; canvas pixel `(cx, cy)` is pixel `(cx mod 256, cy mod 256)` of tile `(tile_SW_X + cx / 256, tile_SW_Y + cy / 256)` |
| Stitcher.GridPixelIsWorldPixel | source/osm_retrieval.py:123-129 | the canvas pixel at a world pixel's offset from the top-left tile's corner is that world pixel |
| Stitcher.WindowOfGridShowsWorld | source/osm_retrieval.py:128-129 | reading the canvas at the rectangle's offset from the top-left tile's corner gives the world-map pixel |
| Stitcher.StitchAndCrop | source/osm_retrieval.py:123-129 | for a planned grid, stitching and cropping yields a fresh image whose pixel `(i, j)` is world pixel `(xMin + i, yMin + j)` |
| Stitcher.RetrieveWindow | source/osm_retrieval.py:109-129 | for any quadkey encoder and two pixel corners on the world map, the result is a fresh `(xMax - xMin) x (yMax - yMin)` image, and its pixel `(i, j)` is world pixel `(xMin + i, yMin + j)` |
| Stitcher.RetrieveAerialImage | source/osm_retrieval.py:109-129 | the same with the tile system's own `TileXYToQuadKey`: each pixel comes from the tile fetched under that tile's quadkey |

## Left out

- The trigonometric part of `LatLongToPixelXY` (lines 35-42) is left out: floating-point sine and logarithm. `ScaleToPixel` takes the normalized Mercator coordinate as input, and `Clip` is modelled on exact reals.
- `PixelXYToLatLong` (lines 48-55) is left out. It is floating-point trigonometry, and its `360 *` factor on line 51 is outside the modelled core.
- `GroundResolution` and `MapScale` (lines 28-33) are left out: floating-point cosine, and not used by the retrieval.
- The `TileSystem` constants (`EarthRadius` and the latitude/longitude limits, lines 16-20) are used only by the left-out projections.
- `PixelXYToTileXY` and `TileXYToPixelXY` are modelled on exact integers. Python's `math.floor(pixelX / 256)` divides in floating point, which is exact for every pixel coordinate below 2^53.
- The HTTP fetch (line 95) and JPEG decoding are replaced by the tile-source parameter, a total function from quadkey to tile. A fetch that raises would abort the script; the model has no failing fetch.
- Saving the image (line 133) and the message at line 131 are I/O and left out.
- Part 2 of the script (lines 135 onwards) is library plumbing and left out: the street-network download and rendering, image resizing, and the overlay.
- QuadKeys.QuadKeyToTileXY requires a non-empty key of ASCII digits '0'..'9'. Python raises on an empty key and on a character that is not a decimal digit; the model makes those cases preconditions rather than modelling the exception. Python's `int` of one character also accepts the other Unicode decimal digits (fullwidth '３', Arabic-Indic '٣' and so on) and decodes keys made of them; the model accepts only ASCII digits and says nothing about those keys.
- Raster.OpenTile always yields a 256x256 image, because the stitching contracts rest on every tile having that size. `Image.open` at line 96 accepts a tile of any size; a server tile of another size would overlap its neighbour or leave black gaps in the pasted row (line 102), and the model does not capture that.
- Raster.Paste requires distinct source and destination images; the script never pastes an image into itself.
- The quadkey properties are stated for `level >= 1`. At level 0 the code yields the key "0", which is also the key of tile (0, 0) at level 1 (`QuadKeys.QuadKeyAtLevelZero`). The model follows the code here, so quadkeys are not a bijection at level 0.

## Findings

| source | as written | input that shows it | evidently intended | confidence | as-written member | corrected member |
|---|---|---|---|---|---|---|
| source/osm_retrieval.py:74-77 | `QuadKeyToTileXY` expands every decimal digit with `'{0:02b}'`, so digits 4-9 are silently decoded into extra bits | `"4"` expands to `"100"` and decodes to tile (0, 2), which does not exist at level 1 and whose key is `"2"` | a key with a digit outside '0'..'3' (or an empty key) is rejected as an invalid address | not executed; medium | QuadKeys.UncheckedDigitDecodesOutsideLevel | QuadKeys.CheckedQuadKeyToTileXY |
