/**
 * The three image operations the stitching code relies on, modelled on
 * two-dimensional arrays indexed `[x, y]` (column, row): a new black RGB image,
 * pasting one image into another at an offset, and cropping a window out of an
 * image. Decoding a fetched tile yields a fresh 256x256 image.
 */
module Raster {
  import opened TileMath

  type Channel = c: int | 0 <= c < 256

  datatype Rgb = Rgb(r: Channel, g: Channel, b: Channel)

  /** The fill colour of a new RGB image. */
  const Black: Rgb := Rgb(0, 0, 0)

  /** A decoded tile, read at pixels 0 <= x, y < 256. */
  type TileImage = (int, int) -> Rgb

  /** `Image.new('RGB', (width, height))`. */
  method NewImage(width: nat, height: nat) returns (img: array2<Rgb>)
    ensures fresh(img) && img.Length0 == width && img.Length1 == height
    ensures forall x, y :: 0 <= x < width && 0 <= y < height ==> img[x, y] == Black
  {
    img := new Rgb[width, height]((x, y) => Black);
  }

  /** `Image.open` on a fetched tile. */
  method OpenTile(tile: TileImage) returns (img: array2<Rgb>)
    ensures fresh(img) && img.Length0 == TileSize && img.Length1 == TileSize
    ensures forall x, y :: 0 <= x < TileSize && 0 <= y < TileSize ==> img[x, y] == tile(x, y)
  {
    img := new Rgb[TileSize, TileSize]((x, y) => tile(x, y));
  }

  /** Whether a `width` x `height` image placed at (ox, oy) covers pixel (x, y). */
  predicate Covers(width: int, height: int, ox: int, oy: int, x: int, y: int)
  {
    ox <= x < ox + width && oy <= y < oy + height
  }

  /**
   * `dst.paste(src, (ox, oy))`: where `src` placed at (ox, oy) overlaps `dst`,
   * `dst` takes `src`'s pixels; everywhere else `dst` is unchanged. Parts of
   * `src` falling outside `dst` are dropped.
   */
  method Paste(dst: array2<Rgb>, src: array2<Rgb>, ox: int, oy: int)
    requires dst != src
    modifies dst
    ensures forall x, y :: 0 <= x < dst.Length0 && 0 <= y < dst.Length1 ==>
              dst[x, y] == if Covers(src.Length0, src.Length1, ox, oy, x, y) then src[x - ox, y - oy] else old(dst[x, y])
  {
    var x := 0;
    while x < dst.Length0
      invariant 0 <= x <= dst.Length0
      invariant forall i, j :: 0 <= i < x && 0 <= j < dst.Length1 ==>
                  dst[i, j] == if Covers(src.Length0, src.Length1, ox, oy, i, j) then src[i - ox, j - oy] else old(dst[i, j])
      invariant forall i, j :: x <= i < dst.Length0 && 0 <= j < dst.Length1 ==> dst[i, j] == old(dst[i, j])
    {
      var y := 0;
      while y < dst.Length1
        invariant 0 <= y <= dst.Length1
        invariant forall i, j :: 0 <= i < x && 0 <= j < dst.Length1 ==>
                    dst[i, j] == if Covers(src.Length0, src.Length1, ox, oy, i, j) then src[i - ox, j - oy] else old(dst[i, j])
        invariant forall j :: 0 <= j < y ==>
                    dst[x, j] == if Covers(src.Length0, src.Length1, ox, oy, x, j) then src[x - ox, j - oy] else old(dst[x, j])
        invariant forall i, j :: x <= i < dst.Length0 && 0 <= j < dst.Length1 && (i != x || y <= j) ==> dst[i, j] == old(dst[i, j])
      {
        if Covers(src.Length0, src.Length1, ox, oy, x, y) {
          dst[x, y] := src[x - ox, y - oy];
        }
        y := y + 1;
      }
      x := x + 1;
    }
  }

  /**
   * `img.crop((left, top, right, bottom))`: the `(right - left) x (bottom - top)`
   * window whose top-left pixel is (left, top); pixels of the window outside
   * `img` are black.
   */
  method Crop(img: array2<Rgb>, left: int, top: int, right: int, bottom: int) returns (out: array2<Rgb>)
    requires left <= right && top <= bottom
    ensures fresh(out)
    ensures out.Length0 == right - left && out.Length1 == bottom - top
    ensures forall i, j :: 0 <= i < out.Length0 && 0 <= j < out.Length1 ==>
              out[i, j] == if 0 <= left + i < img.Length0 && 0 <= top + j < img.Length1 then img[left + i, top + j] else Black
  {
    out := new Rgb[right - left, bottom - top]((i, j) => Black);
    var i := 0;
    while i < out.Length0
      invariant 0 <= i <= out.Length0
      invariant forall p, q :: 0 <= p < i && 0 <= q < out.Length1 ==>
                  out[p, q] == if 0 <= left + p < img.Length0 && 0 <= top + q < img.Length1 then img[left + p, top + q] else Black
    {
      var j := 0;
      while j < out.Length1
        invariant 0 <= j <= out.Length1
        invariant forall p, q :: 0 <= p < i && 0 <= q < out.Length1 ==>
                    out[p, q] == if 0 <= left + p < img.Length0 && 0 <= top + q < img.Length1 then img[left + p, top + q] else Black
        invariant forall q :: 0 <= q < j ==>
                    out[i, q] == if 0 <= left + i < img.Length0 && 0 <= top + q < img.Length1 then img[left + i, top + q] else Black
      {
        if 0 <= left + i < img.Length0 && 0 <= top + j < img.Length1 {
          out[i, j] := img[left + i, top + j];
        } else {
          out[i, j] := Black;
        }
        j := j + 1;
      }
      i := i + 1;
    }
  }
}
