/** Pixel tokens, pre-rendered rectangular tiles, the reflections Pillow's
    `transpose` applies to them, and what pasting a tile does to one pixel. */
module Raster {

  /** A colour tuple such as (255, 255, 255) or (0, 0, 0, 255). Pixels are
      opaque tokens: nothing here looks inside them. */
  type Color = seq<int>

  /** A bitmap of `w` columns and `h` rows; `px[r][c]` is row r, column c. */
  datatype Tile = Tile(w: nat, h: nat, px: seq<seq<Color>>) {
    predicate Valid() {
      |px| == h && forall r :: 0 <= r < h ==> |px[r]| == w
    }
  }

  predicate HasSize(t: Tile, w: nat, h: nat) {
    t.Valid() && t.w == w && t.h == h
  }

  /** A Pillow rasterisation pipeline (draw at 4x, then resize): whatever it
      draws, the tile it returns has exactly the size asked for. */
  ghost predicate ExactSize(render: (nat, nat) -> Tile) {
    forall w: nat, h: nat :: HasSize(render(w, h), w, h)
  }

  /** Image.new(mode, (w, h), color). */
  function Filled(w: nat, h: nat, color: Color): (t: Tile)
    ensures HasSize(t, w, h)
    ensures forall r, c :: 0 <= r < h && 0 <= c < w ==> t.px[r][c] == color
  {
    Tile(w, h, seq(h, _ => seq(w, _ => color)))
  }

  /** The elements of `s` in the opposite order. */
  function Reverse<T>(s: seq<T>): (r: seq<T>)
    ensures |r| == |s|
    ensures forall k :: 0 <= k < |s| ==> r[k] == s[|s| - 1 - k]
  {
    if s == [] then [] else [s[|s| - 1]] + Reverse(s[..|s| - 1])
  }

  /** Transpose.FLIP_LEFT_RIGHT: every row reversed. */
  function FlipLeftRight(t: Tile): (f: Tile)
    requires t.Valid()
    ensures HasSize(f, t.w, t.h)
    ensures forall r, c :: 0 <= r < t.h && 0 <= c < t.w ==> f.px[r][c] == t.px[r][t.w - 1 - c]
  {
    Tile(t.w, t.h, seq(t.h, r requires 0 <= r < t.h => Reverse(t.px[r])))
  }

  /** Transpose.FLIP_TOP_BOTTOM: the rows in reverse order. */
  function FlipTopBottom(t: Tile): (f: Tile)
    requires t.Valid()
    ensures HasSize(f, t.w, t.h)
    ensures forall r, c :: 0 <= r < t.h && 0 <= c < t.w ==> f.px[r][c] == t.px[t.h - 1 - r][c]
  {
    Tile(t.w, t.h, Reverse(t.px))
  }

  /** Transpose.ROTATE_180: a half turn about the centre. */
  function Rotate180(t: Tile): (f: Tile)
    requires t.Valid()
    ensures HasSize(f, t.w, t.h)
  {
    Tile(t.w, t.h, seq(t.h, r requires 0 <= r < t.h =>
      seq(t.w, c requires 0 <= c < t.w => t.px[t.h - 1 - r][t.w - 1 - c])))
  }

  /** Two tiles of the same size with the same pixels are the same tile. */
  lemma TileExt(a: Tile, b: Tile)
    requires HasSize(a, b.w, b.h) && b.Valid()
    requires forall r, c :: 0 <= r < b.h && 0 <= c < b.w ==> a.px[r][c] == b.px[r][c]
    ensures a == b
  {
    assert forall r :: 0 <= r < b.h ==> a.px[r] == b.px[r] by {
      forall r | 0 <= r < b.h ensures a.px[r] == b.px[r] {
        assert forall c :: 0 <= c < b.w ==> a.px[r][c] == b.px[r][c];
      }
    }
    assert a.px == b.px;
  }

  lemma FlipLeftRightInvolution(t: Tile)
    requires t.Valid()
    ensures FlipLeftRight(FlipLeftRight(t)) == t
  {
    TileExt(FlipLeftRight(FlipLeftRight(t)), t);
  }

  lemma FlipTopBottomInvolution(t: Tile)
    requires t.Valid()
    ensures FlipTopBottom(FlipTopBottom(t)) == t
  {
    TileExt(FlipTopBottom(FlipTopBottom(t)), t);
  }

  /** A half turn is both flips, in either order: SE_ROUND is the corner
      diagonally opposite NW_ROUND. */
  lemma Rotate180IsBothFlips(t: Tile)
    requires t.Valid()
    ensures Rotate180(t) == FlipTopBottom(FlipLeftRight(t))
    ensures Rotate180(t) == FlipLeftRight(FlipTopBottom(t))
    ensures forall r, c :: 0 <= r < t.h && 0 <= c < t.w ==>
      Rotate180(t).px[r][c] == t.px[t.h - 1 - r][t.w - 1 - c]
  {
    TileExt(FlipTopBottom(FlipLeftRight(t)), Rotate180(t));
    TileExt(FlipLeftRight(FlipTopBottom(t)), Rotate180(t));
  }

  /** Whether tile `t`, with its top-left corner at column x and row y,
      covers canvas row i, column j. */
  predicate Covers(t: Tile, x: int, y: int, i: int, j: int) {
    y <= i < y + t.h && x <= j < x + t.w
  }

  /** Pixel (i, j) of a canvas after `t` has been composited at (x, y) with
      `over(destination, source)`, given that the pixel was `p` before. */
  function Composited(p: Color, t: Tile, x: int, y: int, i: int, j: int,
                      over: (Color, Color) -> Color): (q: Color)
    requires t.Valid()
    ensures !Covers(t, x, y, i, j) ==> q == p
  {
    if Covers(t, x, y, i, j) then over(p, t.px[i - y][j - x]) else p
  }

  /** Image.paste without a mask: the source pixel replaces the destination. */
  function Replace(destination: Color, source: Color): Color {
    source
  }

  /** Pixel (i, j) after Image.paste(t, (x, y)). */
  function Pasted(p: Color, t: Tile, x: int, y: int, i: int, j: int): (q: Color)
    requires t.Valid()
    ensures q == if Covers(t, x, y, i, j) then t.px[i - y][j - x] else p
  {
    Composited(p, t, x, y, i, j, Replace)
  }

  /** Pixel (i, j) after ImageDraw.rectangle((x0, y0, x1, y1), fill=color):
      the corners are inclusive, so it is the paste of a filled tile of
      x1 - x0 + 1 by y1 - y0 + 1 pixels at (x0, y0); an inverted rectangle
      paints nothing. */
  function Rectangled(p: Color, x0: int, y0: int, x1: int, y1: int,
                      color: Color, i: int, j: int): (q: Color)
    ensures x0 <= x1 && y0 <= y1 ==> q == Pasted(p, Filled(x1 - x0 + 1, y1 - y0 + 1, color), x0, y0, i, j)
    ensures x1 < x0 || y1 < y0 ==> q == p
  {
    if y0 <= i <= y1 && x0 <= j <= x1 then color else p
  }
}
