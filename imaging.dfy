/** The part of a Pillow image that the styling layer changes: a fixed-size
    buffer of pixels, written in place by paste, alpha_composite, rectangle
    and the colour-mask pass. */
module Imaging {
  import opened Raster

  class Image {
    /** pixels[i, j] is row i (y), column j (x). */
    const pixels: array2<Color>

    function Width(): nat { pixels.Length1 }
    function Height(): nat { pixels.Length0 }

    predicate InCanvas(i: int, j: int) {
      0 <= i < Height() && 0 <= j < Width()
    }

    /** Image.new(mode, (width, height), color). */
    constructor New(width: nat, height: nat, color: Color)
      ensures Width() == width && Height() == height && fresh(pixels)
      ensures forall i, j :: 0 <= i < height && 0 <= j < width ==> pixels[i, j] == color
    {
      pixels := new Color[height, width]((i, j) => color);
    }

    /** Blends tile `t` onto the canvas with its top-left corner at column
        x, row y; the parts of `t` that fall outside the canvas are clipped. */
    method Composite(t: Tile, x: int, y: int, over: (Color, Color) -> Color)
      requires t.Valid()
      modifies pixels
      ensures forall i, j :: InCanvas(i, j) ==>
        pixels[i, j] == Composited(old(pixels[i, j]), t, x, y, i, j, over)
    {
      var r := 0;
      while r < t.h
        invariant 0 <= r <= t.h
        invariant forall i, j :: InCanvas(i, j) ==>
          pixels[i, j] == if i < y + r then Composited(old(pixels[i, j]), t, x, y, i, j, over)
                          else old(pixels[i, j])
      {
        var c := 0;
        while c < t.w
          invariant 0 <= c <= t.w
          invariant forall i, j :: InCanvas(i, j) ==>
            pixels[i, j] == if i < y + r || (i == y + r && j < x + c)
                            then Composited(old(pixels[i, j]), t, x, y, i, j, over)
                            else old(pixels[i, j])
        {
          if 0 <= y + r < Height() && 0 <= x + c < Width() {
            pixels[y + r, x + c] := over(pixels[y + r, x + c], t.px[r][c]);
          }
          c := c + 1;
        }
        r := r + 1;
      }
    }

    /** Image.paste(t, (x, y)): the rectangle of `t` is overwritten and no
        other pixel changes. */
    method Paste(t: Tile, x: int, y: int)
      requires t.Valid()
      modifies pixels
      ensures forall i, j :: InCanvas(i, j) ==> pixels[i, j] == Pasted(old(pixels[i, j]), t, x, y, i, j)
    {
      Composite(t, x, y, Replace);
    }

    /** ImageDraw.rectangle((x0, y0, x1, y1), fill=color). */
    method FillRectangle(x0: int, y0: int, x1: int, y1: int, color: Color)
      modifies pixels
      ensures forall i, j :: InCanvas(i, j) ==>
        pixels[i, j] == Rectangled(old(pixels[i, j]), x0, y0, x1, y1, color, i, j)
    {
      if x0 <= x1 && y0 <= y1 {
        Paste(Filled(x1 - x0 + 1, y1 - y0 + 1, color), x0, y0);
      }
    }

    /** A per-pixel pass: pixel (x, y) becomes f(x, y, its colour). */
    method MapPixels(f: (int, int, Color) -> Color)
      modifies pixels
      ensures forall i, j :: InCanvas(i, j) ==> pixels[i, j] == f(j, i, old(pixels[i, j]))
    {
      var i := 0;
      while i < Height()
        invariant 0 <= i <= Height()
        invariant forall a, b :: InCanvas(a, b) ==>
          pixels[a, b] == if a < i then f(b, a, old(pixels[a, b])) else old(pixels[a, b])
      {
        var j := 0;
        while j < Width()
          invariant 0 <= j <= Width()
          invariant forall a, b :: InCanvas(a, b) ==>
            pixels[a, b] == if a < i || (a == i && b < j) then f(b, a, old(pixels[a, b]))
                            else old(pixels[a, b])
        {
          pixels[i, j] := f(j, i, pixels[i, j]);
          j := j + 1;
        }
        i := i + 1;
      }
    }
  }
}
