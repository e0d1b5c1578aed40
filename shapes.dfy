/** What each module drawer's drawrect does to one canvas pixel, stated as a
    pure function of the pixel's previous colour, and the properties of those
    footprints: nothing is drawn for an inactive module, nothing outside the
    module box changes, and the tiles of one module cover their area exactly
    once. */
module Shapes {
  import opened Raster
  import opened Selection
  import opened Geometry

  /** qrcode's box [(x0, y0), (x1, y1)]: the inclusive pixel corners of one
      module. */
  datatype Box = Box(x0: int, y0: int, x1: int, y1: int)

  /** The box of a module `size` pixels wide, as qrcode builds it. */
  predicate IsModuleBox(box: Box, size: nat) {
    box.x1 == box.x0 + size - 1 && box.y1 == box.y0 + size - 1
  }

  predicate InBox(box: Box, i: int, j: int) {
    box.y0 <= i <= box.y1 && box.x0 <= j <= box.x1
  }

  // ---------------------------------------------------------------- squares

  /** SquareModuleDrawer.drawrect: the box itself in the paint colour. */
  function SquarePixel(p: Color, paint: Color, box: Box, active: bool, i: int, j: int): (q: Color)
    ensures active && InBox(box, i, j) ==> q == paint
    ensures !(active && InBox(box, i, j)) ==> q == p
  {
    if active then Rectangled(p, box.x0, box.y0, box.x1, box.y1, paint, i, j) else p
  }

  /** GappedSquareModuleDrawer.drawrect: the box shrunk by the exact
      `delta` on every side, each float corner cast to int by Pillow. */
  function GappedPixel(p: Color, paint: Color, box: Box, delta: Fraction, active: bool,
                       i: int, j: int): (q: Color)
    ensures !active ==> q == p
    ensures q == p || q == paint
  {
    if active then
      Rectangled(p, TruncShift(box.x0, delta), TruncShift(box.y0, delta),
                 TruncShift(box.x1, Negate(delta)), TruncShift(box.y1, Negate(delta)), paint, i, j)
    else p
  }

  /** An active square module paints exactly its module box. */
  lemma SquareFillsModule(p: Color, paint: Color, box: Box, size: nat, active: bool, i: int, j: int)
    requires IsModuleBox(box, size)
    ensures SquarePixel(p, paint, box, active, i, j) ==
      if active && box.y0 <= i < box.y0 + size && box.x0 <= j < box.x0 + size then paint else p
  {
  }

  /** A gapped square of a module at non-negative coordinates, for a size
      ratio between 0 and 1, stays inside its module box. Its near gap is
      floor(delta) and, on boxes of at least two pixels, its far gap is
      ceil(delta): the two gaps are equal exactly when delta is whole. */
  lemma GappedInsideModule(p: Color, paint: Color, box: Box, size: nat, sizeRatio: Ratio, active: bool,
                           i: int, j: int)
    requires IsModuleBox(box, size) && 0 <= box.x0 && 0 <= box.y0
    requires sizeRatio.num <= sizeRatio.den
    ensures var delta := GappedInset(size, sizeRatio);
      !InBox(box, i, j) ==> GappedPixel(p, paint, box, delta, active, i, j) == p
    ensures var delta := GappedInset(size, sizeRatio);
      2 <= size ==>
      GappedPixel(p, paint, box, delta, active, i, j) ==
        if active && box.y0 + Floor(delta) <= i <= box.y1 - Ceil(delta)
                  && box.x0 + Floor(delta) <= j <= box.x1 - Ceil(delta)
        then paint else p
  {
    GappedCorners(box, size, sizeRatio);
  }

  /** Where Pillow puts the gapped square's corners. */
  lemma GappedCorners(box: Box, size: nat, sizeRatio: Ratio)
    requires IsModuleBox(box, size) && 0 <= box.x0 && 0 <= box.y0
    requires sizeRatio.num <= sizeRatio.den
    ensures var d := GappedInset(size, sizeRatio);
      && 0 <= Floor(d)
      && TruncShift(box.x0, d) == box.x0 + Floor(d) && TruncShift(box.y0, d) == box.y0 + Floor(d)
      && TruncShift(box.x1, Negate(d)) <= box.x1 && TruncShift(box.y1, Negate(d)) <= box.y1
      && (2 <= size ==>
            TruncShift(box.x1, Negate(d)) == box.x1 - Ceil(d) &&
            TruncShift(box.y1, Negate(d)) == box.y1 - Ceil(d))
  {
    var delta := GappedInset(size, sizeRatio);
    NearCorner(box.x0, delta);
    NearCorner(box.y0, delta);
    FarCornerInside(box.x1, delta);
    FarCornerInside(box.y1, delta);
    if 2 <= size {
      FarCornerOfModule(box.x1, size, delta);
      FarCornerOfModule(box.y1, size, delta);
    }
  }

  /** On a box of at least two pixels the far corner x1 - delta is not
      negative, since delta is at most half the box. */
  lemma FarCornerOfModule(x1: int, size: nat, delta: Fraction)
    requires 2 <= size && size - 1 <= x1 && 2 * delta.num <= size * delta.den
    ensures TruncShift(x1, Negate(delta)) == x1 - Ceil(delta)
  {
    var D := delta.den;
    MulLeq(D, size, 2 * (size - 1));
    MulLeq(D, size - 1, x1);
    assert D * (2 * (size - 1)) == 2 * (D * (size - 1));
    assert size * D == D * size && x1 * D == D * x1;
    FarCorner(x1, delta);
  }

  /** For a non-negative corner and delta, the near corner x0 + delta is cast
      down to x0 + floor(delta). */
  lemma NearCorner(x0: int, delta: Fraction)
    requires 0 <= x0 && 0 <= delta.num
    ensures 0 <= Floor(delta) && TruncShift(x0, delta) == x0 + Floor(delta)
  {
    MulSign(x0, delta.den);
    MulSign(Floor(delta), delta.den);
  }

  /** box_size 10 and size_ratio 0.7 give delta = 1.5: the square covers
      columns 1 to 7 of the box's 0 to 9, a near gap of one pixel and a far
      gap of two. */
  lemma GappedUnevenGaps(p: Color, paint: Color, i: int)
    requires 1 <= i <= 7 && p != paint
    ensures var delta := GappedInset(10, Ratio(7, 10));
      && Floor(delta) == 1 && Ceil(delta) == 2
      && GappedPixel(p, paint, Box(0, 0, 9, 9), delta, true, i, 7) == paint
      && GappedPixel(p, paint, Box(0, 0, 9, 9), delta, true, i, 8) == p
      && GappedPixel(p, paint, Box(0, 0, 9, 9), delta, true, i, 0) == p
  {
    var delta := GappedInset(10, Ratio(7, 10));
    OneAndAHalf(delta);
    var box := Box(0, 0, 9, 9);
    GappedInsideModule(p, paint, box, 10, Ratio(7, 10), true, i, 7);
    GappedInsideModule(p, paint, box, 10, Ratio(7, 10), true, i, 8);
    GappedInsideModule(p, paint, box, 10, Ratio(7, 10), true, i, 0);
  }

  lemma OneAndAHalf(delta: Fraction)
    requires delta.num * 20 == 30 * delta.den
    ensures Floor(delta) == 1 && Ceil(delta) == 2
  {
    var D := delta.den;
    assert 2 * delta.num == 3 * D;
    BracketUnique(Floor(delta), 1, delta.num, D);
    CeilBracket(delta);
    BracketUnique(Ceil(delta) - 1, 1, delta.num - 1, D);
  }

  /** The far corner x1 - delta, when it is not negative, is cast down to
      x1 - ceil(delta). */
  lemma FarCorner(x1: int, delta: Fraction)
    requires delta.num <= x1 * delta.den
    ensures TruncShift(x1, Negate(delta)) == x1 - Ceil(delta)
  {
    FloorCeil(delta);
  }

  /** For a non-negative delta the far corner never passes x1. */
  lemma FarCornerInside(x1: int, delta: Fraction)
    requires 0 <= delta.num
    ensures TruncShift(x1, Negate(delta)) <= x1
  {
    FloorCeil(delta);
    MulSign(Floor(delta), delta.den);
  }

  // ---------------------------------------------------------------- circles

  /** CircleModuleDrawer.drawrect: the circle tile pasted `padding` pixels in
      from the box's top-left corner. */
  function CirclePixel(p: Color, circle: Tile, padding: int, box: Box, active: bool,
                       i: int, j: int): (q: Color)
    requires circle.Valid()
    ensures !(active && Covers(circle, box.x0 + padding, box.y0 + padding, i, j)) ==> q == p
  {
    if active then Pasted(p, circle, box.x0 + padding, box.y0 + padding, i, j) else p
  }

  /** With the tile of side size - 2 * padding that initialize makes, the
      circle lies inside the module box with a margin of `padding` on each
      of the four sides. */
  lemma CircleCentredInModule(p: Color, circle: Tile, padding: nat, box: Box, size: nat,
                              active: bool, i: int, j: int)
    requires IsModuleBox(box, size) && padding <= size - padding
    requires HasSize(circle, size - 2 * padding, size - 2 * padding)
    ensures CirclePixel(p, circle, padding, box, active, i, j) ==
      if active && box.y0 + padding <= i <= box.y1 - padding && box.x0 + padding <= j <= box.x1 - padding
      then circle.px[i - box.y0 - padding][j - box.x0 - padding]
      else p
    ensures !InBox(box, i, j) ==> CirclePixel(p, circle, padding, box, active, i, j) == p
  {
  }

  // -------------------------------------------------------- rounded modules

  /** RoundedModuleDrawer's tiles: SQUARE and the four rounded corners. */
  datatype CornerShapes = CornerShapes(square: Tile, nw: Tile, ne: Tile, se: Tile, sw: Tile) {
    predicate Valid() {
      square.Valid() && nw.Valid() && ne.Valid() && se.Valid() && sw.Valid()
    }

    /** Every tile is a square of side `cw`. */
    predicate Sized(cw: nat) {
      HasSize(square, cw, cw) && HasSize(nw, cw, cw) && HasSize(ne, cw, cw) &&
      HasSize(se, cw, cw) && HasSize(sw, cw, cw)
    }

    function Round(c: Corner): Tile {
      match c
      case NW => nw
      case NE => ne
      case SE => se
      case SW => sw
    }
  }

  /** setup_corners: SQUARE as given, SW_ROUND, SE_ROUND and NE_ROUND as the
      top-bottom flip, the half turn and the left-right flip of NW_ROUND, so
      each is NW_ROUND mirrored into its own corner. */
  function CornersFrom(square: Tile, nw: Tile): (s: CornerShapes)
    requires square.Valid() && nw.Valid()
    ensures s.Valid() && s.square == square && s.nw == nw
    ensures HasSize(s.ne, nw.w, nw.h) && HasSize(s.se, nw.w, nw.h) && HasSize(s.sw, nw.w, nw.h)
    ensures forall cw: nat :: HasSize(square, cw, cw) && HasSize(nw, cw, cw) ==> s.Sized(cw)
    ensures forall r, c :: 0 <= r < nw.h && 0 <= c < nw.w ==>
      && s.ne.px[r][c] == nw.px[r][nw.w - 1 - c]
      && s.sw.px[r][c] == nw.px[nw.h - 1 - r][c]
      && s.se.px[r][c] == nw.px[nw.h - 1 - r][nw.w - 1 - c]
  {
    Rotate180IsBothFlips(nw);
    CornerShapes(square, nw, FlipLeftRight(nw), Rotate180(nw), FlipTopBottom(nw))
  }

  /** The tile drawn at corner c: its rounded tile when no neighbour
      touching c is active, SQUARE as soon as one is. */
  function CornerTile(shapes: CornerShapes, ctx: Context, c: Corner): (t: Tile)
    ensures (forall side :: Touches(c, side) ==> !Active(ctx, side)) ==> t == shapes.Round(c)
    ensures (exists side :: Touches(c, side) && Active(ctx, side)) ==> t == shapes.square
  {
    if CornerRounded(ctx, c) then shapes.Round(c) else shapes.square
  }

  /** RoundedModuleDrawer.drawrect: four tiles of side `cw`, pasted NW, NE,
      SE, SW at offsets 0 and cw from the box's top-left corner. */
  function RoundedPixel(p: Color, cw: nat, shapes: CornerShapes, box: Box, ctx: Context,
                        i: int, j: int): (q: Color)
    requires shapes.Valid()
    ensures !ctx.me ==> q == p
  {
    if !ctx.me then p
    else
      var x, y := box.x0, box.y0;
      var afterNW := Pasted(p, CornerTile(shapes, ctx, NW), x, y, i, j);
      var afterNE := Pasted(afterNW, CornerTile(shapes, ctx, NE), x + cw, y, i, j);
      var afterSE := Pasted(afterNE, CornerTile(shapes, ctx, SE), x + cw, y + cw, i, j);
      Pasted(afterSE, CornerTile(shapes, ctx, SW), x, y + cw, i, j)
  }

  /** The tile of each corner, from the neighbour flags drawrect reads. */
  lemma CornerTileChoice(shapes: CornerShapes, ctx: Context)
    ensures CornerTile(shapes, ctx, NW) == if !ctx.w && !ctx.n then shapes.nw else shapes.square
    ensures CornerTile(shapes, ctx, NE) == if !ctx.n && !ctx.e then shapes.ne else shapes.square
    ensures CornerTile(shapes, ctx, SE) == if !ctx.e && !ctx.s then shapes.se else shapes.square
    ensures CornerTile(shapes, ctx, SW) == if !ctx.s && !ctx.w then shapes.sw else shapes.square
  {
  }

  /** An active rounded module is the four pastes, NW, NE, SE, SW. */
  lemma RoundedPixelIsFourPastes(p: Color, cw: nat, shapes: CornerShapes, box: Box, ctx: Context,
                                 i: int, j: int)
    requires shapes.Valid() && ctx.me
    ensures var x, y := box.x0, box.y0;
      RoundedPixel(p, cw, shapes, box, ctx, i, j) ==
        Pasted(Pasted(Pasted(Pasted(p, CornerTile(shapes, ctx, NW), x, y, i, j),
                             CornerTile(shapes, ctx, NE), x + cw, y, i, j),
                      CornerTile(shapes, ctx, SE), x + cw, y + cw, i, j),
               CornerTile(shapes, ctx, SW), x, y + cw, i, j)
  {
  }

  /** The four quadrant tiles cover the square of side 2 cw at the box's
      corner exactly: each pixel of it shows its own quadrant's tile, and no
      pixel outside it changes. */
  lemma RoundedQuadrants(p: Color, cw: nat, shapes: CornerShapes, box: Box, ctx: Context,
                         i: int, j: int)
    requires shapes.Valid() && shapes.Sized(cw)
    ensures var x, y, q := box.x0, box.y0, RoundedPixel(p, cw, shapes, box, ctx, i, j);
      && (ctx.me && y <= i < y + cw && x <= j < x + cw ==>
            q == CornerTile(shapes, ctx, NW).px[i - y][j - x])
      && (ctx.me && y <= i < y + cw && x + cw <= j < x + 2 * cw ==>
            q == CornerTile(shapes, ctx, NE).px[i - y][j - x - cw])
      && (ctx.me && y + cw <= i < y + 2 * cw && x + cw <= j < x + 2 * cw ==>
            q == CornerTile(shapes, ctx, SE).px[i - y - cw][j - x - cw])
      && (ctx.me && y + cw <= i < y + 2 * cw && x <= j < x + cw ==>
            q == CornerTile(shapes, ctx, SW).px[i - y - cw][j - x])
      && (!(ctx.me && y <= i < y + 2 * cw && x <= j < x + 2 * cw) ==> q == p)
  {
  }

  /** With cw = int(box_size / 2) the rounded module stays inside its box, and
      when box_size is odd its last row and last column are left untouched. */
  lemma RoundedInsideModule(p: Color, shapes: CornerShapes, box: Box, size: nat, ctx: Context,
                            i: int, j: int)
    requires shapes.Valid() && shapes.Sized(Half(size)) && IsModuleBox(box, size)
    ensures !InBox(box, i, j) ==> RoundedPixel(p, Half(size), shapes, box, ctx, i, j) == p
    ensures size % 2 == 1 && (i == box.y1 || j == box.x1) ==>
      RoundedPixel(p, Half(size), shapes, box, ctx, i, j) == p
  {
    RoundedQuadrants(p, Half(size), shapes, box, ctx, i, j);
  }

  // ------------------------------------------------------------------- bars

  /** A bar drawer's tiles: SQUARE and the two rounded ends (ROUND_TOP and
      ROUND_BOTTOM, or ROUND_LEFT and ROUND_RIGHT). */
  datatype BarShapes = BarShapes(square: Tile, first: Tile, second: Tile) {
    predicate Valid() {
      square.Valid() && first.Valid() && second.Valid()
    }

    predicate Sized(w: nat, h: nat) {
      HasSize(square, w, h) && HasSize(first, w, h) && HasSize(second, w, h)
    }
  }

  /** VerticalBarsDrawer.drawrect: a top and a bottom tile, `delta` in from
      the left edge, the bottom one `half` pixels down. */
  function VerticalPixel(p: Color, bars: BarShapes, half: nat, delta: int, box: Box, ctx: Context,
                         i: int, j: int): (q: Color)
    requires bars.Valid()
    ensures !ctx.me ==> q == p
  {
    if !ctx.me then p
    else
      var top := if TopRounded(ctx) then bars.first else bars.square;
      var bottom := if BottomRounded(ctx) then bars.second else bars.square;
      var afterTop := Pasted(p, top, box.x0 + delta, box.y0, i, j);
      Pasted(afterTop, bottom, box.x0 + delta, box.y0 + half, i, j)
  }

  /** HorizontalBarsDrawer.drawrect: a left and a right tile, `delta` down
      from the top edge, the right one `half` pixels across. */
  function HorizontalPixel(p: Color, bars: BarShapes, half: nat, delta: int, box: Box, ctx: Context,
                           i: int, j: int): (q: Color)
    requires bars.Valid()
    ensures !ctx.me ==> q == p
  {
    if !ctx.me then p
    else
      var left := if LeftRounded(ctx) then bars.first else bars.square;
      var right := if RightRounded(ctx) then bars.second else bars.square;
      var afterLeft := Pasted(p, left, box.x0, box.y0 + delta, i, j);
      Pasted(afterLeft, right, box.x0 + half, box.y0 + delta, i, j)
  }

  /** The two halves of a vertical bar: the column band [x0+delta,
      x0+delta+len) shows the top tile in rows [y0, y0+half) and the bottom
      tile in rows [y0+half, y0+2 half); the rounded end is chosen by N and S
      alone; nothing else changes. */
  lemma VerticalHalves(p: Color, bars: BarShapes, len: nat, half: nat, delta: int, box: Box,
                       ctx: Context, i: int, j: int)
    requires bars.Valid() && bars.Sized(len, half)
    ensures var x, y, q := box.x0 + delta, box.y0, VerticalPixel(p, bars, half, delta, box, ctx, i, j);
      && (ctx.me && y <= i < y + half && x <= j < x + len ==>
            q == (if !ctx.n then bars.first else bars.square).px[i - y][j - x])
      && (ctx.me && y + half <= i < y + 2 * half && x <= j < x + len ==>
            q == (if !ctx.s then bars.second else bars.square).px[i - y - half][j - x])
      && (!(ctx.me && y <= i < y + 2 * half && x <= j < x + len) ==> q == p)
  {
  }

  /** The two halves of a horizontal bar, chosen by W and E alone. */
  lemma HorizontalHalves(p: Color, bars: BarShapes, len: nat, half: nat, delta: int, box: Box,
                         ctx: Context, i: int, j: int)
    requires bars.Valid() && bars.Sized(half, len)
    ensures var x, y, q := box.x0, box.y0 + delta, HorizontalPixel(p, bars, half, delta, box, ctx, i, j);
      && (ctx.me && y <= i < y + len && x <= j < x + half ==>
            q == (if !ctx.w then bars.first else bars.square).px[i - y][j - x])
      && (ctx.me && y <= i < y + len && x + half <= j < x + 2 * half ==>
            q == (if !ctx.e then bars.second else bars.square).px[i - y][j - x - half])
      && (!(ctx.me && y <= i < y + len && x <= j < x + 2 * half) ==> q == p)
  {
  }

  /** The east and west flags never change what a vertical bar draws, nor the
      north and south flags what a horizontal bar draws. */
  lemma BarsIgnoreCrossNeighbours(p: Color, bars: BarShapes, half: nat, delta: int, box: Box,
                                  ctx: Context, a: bool, b: bool, i: int, j: int)
    requires bars.Valid()
    ensures VerticalPixel(p, bars, half, delta, box, ctx.(e := a, w := b), i, j)
         == VerticalPixel(p, bars, half, delta, box, ctx, i, j)
    ensures HorizontalPixel(p, bars, half, delta, box, ctx.(n := a, s := b), i, j)
         == HorizontalPixel(p, bars, half, delta, box, ctx, i, j)
  {
  }

  /** With the lengths and insets initialize computes for a shrink ratio of
      at most 1, a bar (of either direction) stays inside its module box. */
  lemma BarsInsideModule(p: Color, bars: BarShapes, size: nat, shrink: Ratio, box: Box,
                         ctx: Context, i: int, j: int)
    requires shrink.num <= shrink.den && IsModuleBox(box, size)
    requires bars.Valid() && bars.Sized(Scale(2 * Half(size), shrink), Half(size))
    ensures !InBox(box, i, j) ==>
      VerticalPixel(p, bars, Half(size), BarInset(Half(size), shrink), box, ctx, i, j) == p
  {
    BarFits(Half(size), shrink);
    VerticalHalves(p, bars, Scale(2 * Half(size), shrink), Half(size), BarInset(Half(size), shrink),
                   box, ctx, i, j);
  }

  lemma HorizontalBarsInsideModule(p: Color, bars: BarShapes, size: nat, shrink: Ratio, box: Box,
                                   ctx: Context, i: int, j: int)
    requires shrink.num <= shrink.den && IsModuleBox(box, size)
    requires bars.Valid() && bars.Sized(Half(size), Scale(2 * Half(size), shrink))
    ensures !InBox(box, i, j) ==>
      HorizontalPixel(p, bars, Half(size), BarInset(Half(size), shrink), box, ctx, i, j) == p
  {
    BarFits(Half(size), shrink);
    HorizontalHalves(p, bars, Scale(2 * Half(size), shrink), Half(size),
                     BarInset(Half(size), shrink), box, ctx, i, j);
  }

  // ------------------------------------------------------- inactive modules

  /** Every drawer leaves the canvas as it was for an inactive module. */
  lemma InactiveModuleUntouched(p: Color, paint: Color, box: Box, gap: Fraction, delta: int, circle: Tile,
                                padding: int, cw: nat, shapes: CornerShapes, bars: BarShapes,
                                half: nat, ctx: Context, i: int, j: int)
    requires circle.Valid() && shapes.Valid() && bars.Valid() && !ctx.me
    ensures SquarePixel(p, paint, box, ctx.me, i, j) == p
    ensures GappedPixel(p, paint, box, gap, ctx.me, i, j) == p
    ensures CirclePixel(p, circle, padding, box, ctx.me, i, j) == p
    ensures RoundedPixel(p, cw, shapes, box, ctx, i, j) == p
    ensures VerticalPixel(p, bars, half, delta, box, ctx, i, j) == p
    ensures HorizontalPixel(p, bars, half, delta, box, ctx, i, j) == p
  {
  }
}
