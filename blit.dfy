/** Drawing into the canvas in place: `draw.Draw` with the Src operator and a
    zero source point, and the loop that stacks every image down the canvas. */
module Blit {
  import opened Types
  import opened Layout

  /** Whether drawing `src` into rectangle `r` of a `width` x `height` canvas writes
      cell (x, y): the cell must lie in the canvas, in `r`, and in the source image
      shifted to `r`'s corner. */
  predicate Covers(r: Rect, src: Image, width: int, height: int, x: int, y: int) {
    0 <= x < width && 0 <= y < height && r.Contains(x, y)
    && x - r.minX < src.width && y - r.minY < src.height
  }

  function Max(a: int, b: int): int { if a < b then b else a }

  function Min(a: int, b: int): int { if a < b then a else b }

  /** Copies `src` into `dst` at `r`, clipped to both, as the Src operator does:
      every covered cell takes the source pixel at the same offset from `r`'s
      corner and every other cell keeps its value. */
  method Draw(dst: array2<Color>, r: Rect, src: Image)
    modifies dst
    ensures forall y, x :: 0 <= y < dst.Length0 && 0 <= x < dst.Length1 ==>
      dst[y, x] == if Covers(r, src, dst.Length1, dst.Length0, x, y)
                   then src.rows[y - r.minY][x - r.minX] else old(dst[y, x])
  {
    var x0, x1 := Max(r.minX, 0), Min(Min(r.maxX, r.minX + src.width), dst.Length1);
    var y0, y1 := Max(r.minY, 0), Min(Min(r.maxY, r.minY + src.height), dst.Length0);
    if x1 <= x0 || y1 <= y0 {
      return;
    }
    var y := y0;
    while y < y1
      invariant y0 <= y <= y1
      invariant forall yy, xx :: 0 <= yy < dst.Length0 && 0 <= xx < dst.Length1 ==>
        dst[yy, xx] == if Covers(r, src, dst.Length1, dst.Length0, xx, yy) && yy < y
                       then src.rows[yy - r.minY][xx - r.minX] else old(dst[yy, xx])
    {
      var x := x0;
      while x < x1
        invariant x0 <= x <= x1
        invariant forall yy, xx :: 0 <= yy < dst.Length0 && 0 <= xx < dst.Length1 ==>
          dst[yy, xx] == if Covers(r, src, dst.Length1, dst.Length0, xx, yy) && (yy < y || (yy == y && xx < x))
                         then src.rows[yy - r.minY][xx - r.minX] else old(dst[yy, xx])
      {
        dst[y, x] := src.rows[y - r.minY][x - r.minX];
        x := x + 1;
      }
      y := y + 1;
    }
  }

  /** The drawing loop of the strip composer: each image in turn at x = 0 and
      y = the heights drawn so far, at its own size. Afterwards every cell shows
      the strip's pixel where an image covers it and its old value elsewhere. */
  method DrawStrip(canvas: array2<Color>, imgs: seq<Image>)
    modifies canvas
    ensures forall y, x :: 0 <= y < canvas.Length0 && 0 <= x < canvas.Length1 ==>
      canvas[y, x] == Over(StripPixel(imgs, y, x), old(canvas[y, x]))
  {
    var y := 0;
    for k := 0 to |imgs|
      invariant y == TotalHeight(imgs[..k])
      invariant forall yy, xx :: 0 <= yy < canvas.Length0 && 0 <= xx < canvas.Length1 ==>
        canvas[yy, xx] == Over(StripPixel(imgs[..k], yy, xx), old(canvas[yy, xx]))
    {
      var img := imgs[k];
      var rect := Rect(0, y, img.width, y + img.height);
      assert rect == Placement(imgs, k);
      Draw(canvas, rect, img);
      assert imgs[..k + 1][..k] == imgs[..k];
      forall yy, xx | 0 <= yy < canvas.Length0 && 0 <= xx < canvas.Length1
        ensures canvas[yy, xx] == Over(StripPixel(imgs[..k + 1], yy, xx), old(canvas[yy, xx]))
      {
        if yy >= y {
          BelowStrip(imgs[..k], yy, xx);
        }
      }
      y := y + img.height;
    }
    assert imgs[..|imgs|] == imgs;
  }
}
