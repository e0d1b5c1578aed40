/** The module drawers. Each is configured by its constructor (`__init__`),
    prepares its tiles in `Initialize` once the image is known, and pastes
    onto the image's canvas in `DrawRect`, one module at a time. Every
    DrawRect is specified pixel by pixel by the matching function of module
    Shapes. */
module Drawers {
  import opened Raster
  import opened Selection
  import opened Geometry
  import opened Shapes
  import opened Imaging
  import opened StyledPil

  class SquareDrawer {
    var img: StyledImage?

    constructor ()
      ensures img == null
    {
      img := null;
    }

    method Initialize(img: StyledImage)
      modifies this
      ensures this.img == img
    {
      this.img := img;
    }

    method DrawRect(box: Box, isActive: bool)
      requires img != null
      modifies img.canvas.pixels
      ensures forall i, j :: img.canvas.InCanvas(i, j) ==>
        img.canvas.pixels[i, j] == SquarePixel(old(img.canvas.pixels[i, j]), img.paintColor, box, isActive, i, j)
    {
      if isActive {
        img.canvas.FillRectangle(box.x0, box.y0, box.x1, box.y1, img.paintColor);
      }
    }
  }

  class GappedSquareDrawer {
    const sizeRatio: Ratio
    var img: StyledImage?
    /** (1 - size_ratio) * box_size / 2, a float in the source, kept exact. */
    var delta: Fraction

    constructor (sizeRatio: Ratio := DefaultShrink)
      ensures this.sizeRatio == sizeRatio && img == null
    {
      this.sizeRatio := sizeRatio;
      img := null;
      delta := Fraction(0, 1);
    }

    method Initialize(img: StyledImage)
      modifies this
      ensures this.img == img && delta == GappedInset(img.boxSize, sizeRatio)
    {
      this.img := img;
      delta := GappedInset(img.boxSize, sizeRatio);
    }

    method DrawRect(box: Box, isActive: bool)
      requires img != null
      modifies img.canvas.pixels
      ensures forall i, j :: img.canvas.InCanvas(i, j) ==>
        img.canvas.pixels[i, j] == GappedPixel(old(img.canvas.pixels[i, j]), img.paintColor, box, delta, isActive, i, j)
    {
      if isActive {
        // Pillow casts each float corner of smaller_box to int.
        var smaller := Box(TruncShift(box.x0, delta), TruncShift(box.y0, delta),
                           TruncShift(box.x1, Negate(delta)), TruncShift(box.y1, Negate(delta)));
        img.canvas.FillRectangle(smaller.x0, smaller.y0, smaller.x1, smaller.y1, img.paintColor);
      }
    }
  }

  class CircleDrawer {
    const paddingRatio: Ratio
    var img: StyledImage?
    var padding: int
    var circle: Tile

    /** After a successful Initialize: the circle tile fills the box less
        `padding` on each side. */
    ghost predicate Ready()
      reads this
    {
      && img != null && 0 <= padding && 2 * padding <= img.boxSize
      && HasSize(circle, img.boxSize - 2 * padding, img.boxSize - 2 * padding)
    }

    constructor (paddingRatio: Ratio := DefaultPadding)
      ensures this.paddingRatio == paddingRatio && img == null
    {
      this.paddingRatio := paddingRatio;
      img := null;
      padding := 0;
      circle := Filled(0, 0, []);
    }

    /** initialize: `render` stands for drawing the ellipse at four times the
        size and resizing it down. A negative tile side is the ValueError of
        Image.new: `ok` is false and no tile is made. */
    method Initialize(img: StyledImage, render: (nat, nat) -> Tile) returns (ok: bool)
      requires ExactSize(render)
      modifies this
      ensures this.img == img
      ensures ok <==> 2 * CirclePadding(img.boxSize, paddingRatio) <= img.boxSize
      ensures ok ==> Ready() && padding == CirclePadding(img.boxSize, paddingRatio)
      ensures ok ==> circle == render(img.boxSize - 2 * padding, img.boxSize - 2 * padding)
      ensures !ok ==> padding == old(padding) && circle == old(circle)
    {
      this.img := img;
      var boxSize := img.boxSize;
      var p := CirclePadding(boxSize, paddingRatio);
      if 2 * p > boxSize {
        return false;
      }
      circle := render(boxSize - 2 * p, boxSize - 2 * p);
      padding := p;
      return true;
    }

    method DrawRect(box: Box, isActive: bool)
      requires Ready()
      modifies img.canvas.pixels
      ensures forall i, j :: img.canvas.InCanvas(i, j) ==>
        img.canvas.pixels[i, j] == CirclePixel(old(img.canvas.pixels[i, j]), circle, padding, box, isActive, i, j)
    {
      if isActive {
        img.canvas.Paste(circle, box.x0 + padding, box.y0 + padding);
      }
    }
  }

  class RoundedDrawer {
    /** Only shapes the rasterised NW_ROUND, which is not modelled. */
    const radiusRatio: Ratio
    var img: StyledImage?
    var cornerWidth: nat
    var square: Tile
    var nwRound: Tile
    var neRound: Tile
    var seRound: Tile
    var swRound: Tile

    function Tiles(): CornerShapes
      reads this
    {
      CornerShapes(square, nwRound, neRound, seRound, swRound)
    }

    /** After Initialize: five tiles of side corner_width = int(box_size / 2),
        the three rounded corners being reflections of NW_ROUND. */
    ghost predicate Ready()
      reads this
    {
      && img != null && cornerWidth == Half(img.boxSize)
      && Tiles().Valid() && Tiles().Sized(cornerWidth)
      && Tiles() == CornersFrom(square, nwRound)
    }

    constructor (radiusRatio: Ratio := DefaultRadius)
      ensures this.radiusRatio == radiusRatio && img == null
    {
      this.radiusRatio := radiusRatio;
      img := null;
      cornerWidth := 0;
      square, nwRound, neRound, seRound, swRound :=
        Filled(0, 0, []), Filled(0, 0, []), Filled(0, 0, []), Filled(0, 0, []), Filled(0, 0, []);
    }

    /** initialize: `render` stands for the antialiased drawing of the NW
        corner shape at four times the size followed by the resize. */
    method Initialize(img: StyledImage, render: (nat, nat) -> Tile)
      requires ExactSize(render)
      modifies this
      ensures this.img == img && Ready()
      ensures square == Filled(cornerWidth, cornerWidth, img.paintColor)
      ensures nwRound == render(cornerWidth, cornerWidth)
    {
      this.img := img;
      cornerWidth := Half(img.boxSize);
      SetupCorners(render);
    }

    method SetupCorners(render: (nat, nat) -> Tile)
      requires img != null && ExactSize(render)
      modifies this`square, this`nwRound, this`neRound, this`seRound, this`swRound
      ensures square == Filled(cornerWidth, cornerWidth, img.paintColor)
      ensures nwRound == render(cornerWidth, cornerWidth)
      ensures Tiles() == CornersFrom(square, nwRound)
    {
      square := Filled(cornerWidth, cornerWidth, img.paintColor);
      nwRound := render(cornerWidth, cornerWidth);
      assert HasSize(nwRound, cornerWidth, cornerWidth);
      swRound := FlipTopBottom(nwRound);
      seRound := Rotate180(nwRound);
      neRound := FlipLeftRight(nwRound);
    }

    method DrawRect(box: Box, isActive: Context)
      requires Ready()
      modifies img.canvas.pixels
      ensures forall i, j :: img.canvas.InCanvas(i, j) ==>
        img.canvas.pixels[i, j] == RoundedPixel(old(img.canvas.pixels[i, j]), cornerWidth, Tiles(), box, isActive, i, j)
    {
      if !isActive.me {
        return;
      }
      var nwRounded := !isActive.w && !isActive.n;
      var neRounded := !isActive.n && !isActive.e;
      var seRounded := !isActive.e && !isActive.s;
      var swRounded := !isActive.s && !isActive.w;

      var nw := if nwRounded then nwRound else square;
      var ne := if neRounded then neRound else square;
      var se := if seRounded then seRound else square;
      var sw := if swRounded then swRound else square;
      var canvas, shapes, x, y, cw := img.canvas, Tiles(), box.x0, box.y0, cornerWidth;
      CornerTileChoice(shapes, isActive);
      assert nw == CornerTile(shapes, isActive, NW) && ne == CornerTile(shapes, isActive, NE);
      assert se == CornerTile(shapes, isActive, SE) && sw == CornerTile(shapes, isActive, SW);
      PasteCorners(canvas, nw, ne, se, sw, x, y, cw);
      forall i, j | canvas.InCanvas(i, j)
        ensures canvas.pixels[i, j] == RoundedPixel(old(canvas.pixels[i, j]), cw, shapes, box, isActive, i, j)
      {
        var p0 := old(canvas.pixels[i, j]);
        assert canvas.pixels[i, j] ==
          Pasted(Pasted(Pasted(Pasted(p0, nw, x, y, i, j), ne, x + cw, y, i, j), se, x + cw, y + cw, i, j),
                 sw, x, y + cw, i, j);
        RoundedPixelIsFourPastes(p0, cw, shapes, box, isActive, i, j);
      }
    }
  }

  /** The four pastes of RoundedModuleDrawer.drawrect, in their order. */
  method PasteCorners(canvas: Image, nw: Tile, ne: Tile, se: Tile, sw: Tile, x: int, y: int, cw: nat)
    requires nw.Valid() && ne.Valid() && se.Valid() && sw.Valid()
    modifies canvas.pixels
    ensures forall i, j :: canvas.InCanvas(i, j) ==>
      canvas.pixels[i, j] ==
        Pasted(Pasted(Pasted(Pasted(old(canvas.pixels[i, j]), nw, x, y, i, j),
                             ne, x + cw, y, i, j),
                      se, x + cw, y + cw, i, j),
               sw, x, y + cw, i, j)
  {
    label L0:
    canvas.Paste(nw, x, y);
    label L1:
    canvas.Paste(ne, x + cw, y);
    label L2:
    canvas.Paste(se, x + cw, y + cw);
    label L3:
    canvas.Paste(sw, x, y + cw);
    forall i, j | canvas.InCanvas(i, j)
      ensures canvas.pixels[i, j] ==
        Pasted(Pasted(Pasted(Pasted(old@L0(canvas.pixels[i, j]), nw, x, y, i, j),
                             ne, x + cw, y, i, j),
                      se, x + cw, y + cw, i, j),
               sw, x, y + cw, i, j)
    {
      assert old@L1(canvas.pixels[i, j]) == Pasted(old@L0(canvas.pixels[i, j]), nw, x, y, i, j);
      assert old@L2(canvas.pixels[i, j]) == Pasted(old@L1(canvas.pixels[i, j]), ne, x + cw, y, i, j);
      assert old@L3(canvas.pixels[i, j]) == Pasted(old@L2(canvas.pixels[i, j]), se, x + cw, y + cw, i, j);
    }
  }

  class VerticalBarsDrawer {
    const horizontalShrink: Ratio
    var img: StyledImage?
    var halfHeight: nat
    var delta: int
    var square: Tile
    var roundTop: Tile
    var roundBottom: Tile

    function Tiles(): BarShapes
      reads this
    {
      BarShapes(square, roundTop, roundBottom)
    }

    /** After Initialize: three tiles of int(2 * half_height * shrink) columns
        and half_height rows, ROUND_BOTTOM being ROUND_TOP upside down. */
    ghost predicate Ready()
      reads this
    {
      && img != null && halfHeight == Half(img.boxSize)
      && delta == BarInset(halfHeight, horizontalShrink)
      && Tiles().Valid() && Tiles().Sized(Scale(2 * halfHeight, horizontalShrink), halfHeight)
      && roundBottom == FlipTopBottom(roundTop)
    }

    constructor (horizontalShrink: Ratio := DefaultShrink)
      ensures this.horizontalShrink == horizontalShrink && img == null
    {
      this.horizontalShrink := horizontalShrink;
      img := null;
      halfHeight, delta := 0, 0;
      square, roundTop, roundBottom := Filled(0, 0, []), Filled(0, 0, []), Filled(0, 0, []);
    }

    method Initialize(img: StyledImage, render: (nat, nat) -> Tile)
      requires ExactSize(render)
      modifies this
      ensures this.img == img && Ready()
      ensures square == Filled(Scale(2 * halfHeight, horizontalShrink), halfHeight, img.paintColor)
      ensures roundTop == render(Scale(2 * halfHeight, horizontalShrink), halfHeight)
    {
      this.img := img;
      halfHeight := Half(img.boxSize);
      delta := BarInset(halfHeight, horizontalShrink);
      SetupEdges(render);
    }

    method SetupEdges(render: (nat, nat) -> Tile)
      requires img != null && ExactSize(render)
      modifies this`square, this`roundTop, this`roundBottom
      ensures square == Filled(Scale(2 * halfHeight, horizontalShrink), halfHeight, img.paintColor)
      ensures roundTop == render(Scale(2 * halfHeight, horizontalShrink), halfHeight)
      ensures roundTop.Valid() && roundBottom == FlipTopBottom(roundTop)
    {
      var height := halfHeight;
      var width := height * 2;
      var shrunkenWidth := Scale(width, horizontalShrink);
      square := Filled(shrunkenWidth, height, img.paintColor);
      roundTop := render(shrunkenWidth, height);
      assert HasSize(roundTop, shrunkenWidth, height);
      roundBottom := FlipTopBottom(roundTop);
    }

    method DrawRect(box: Box, isActive: Context)
      requires Ready()
      modifies img.canvas.pixels
      ensures forall i, j :: img.canvas.InCanvas(i, j) ==>
        img.canvas.pixels[i, j] == VerticalPixel(old(img.canvas.pixels[i, j]), Tiles(), halfHeight, delta, box, isActive, i, j)
    {
      if isActive.me {
        var topRounded := !isActive.n;
        var bottomRounded := !isActive.s;

        var top := if topRounded then roundTop else square;
        var bottom := if bottomRounded then roundBottom else square;
        img.canvas.Paste(top, box.x0 + delta, box.y0);
        img.canvas.Paste(bottom, box.x0 + delta, box.y0 + halfHeight);
      }
    }
  }

  class HorizontalBarsDrawer {
    const verticalShrink: Ratio
    var img: StyledImage?
    var halfWidth: nat
    var delta: int
    var square: Tile
    var roundLeft: Tile
    var roundRight: Tile

    function Tiles(): BarShapes
      reads this
    {
      BarShapes(square, roundLeft, roundRight)
    }

    /** After Initialize: three tiles of half_width columns and
        int(2 * half_width * shrink) rows, ROUND_RIGHT being ROUND_LEFT
        mirrored. */
    ghost predicate Ready()
      reads this
    {
      && img != null && halfWidth == Half(img.boxSize)
      && delta == BarInset(halfWidth, verticalShrink)
      && Tiles().Valid() && Tiles().Sized(halfWidth, Scale(2 * halfWidth, verticalShrink))
      && roundRight == FlipLeftRight(roundLeft)
    }

    constructor (verticalShrink: Ratio := DefaultShrink)
      ensures this.verticalShrink == verticalShrink && img == null
    {
      this.verticalShrink := verticalShrink;
      img := null;
      halfWidth, delta := 0, 0;
      square, roundLeft, roundRight := Filled(0, 0, []), Filled(0, 0, []), Filled(0, 0, []);
    }

    method Initialize(img: StyledImage, render: (nat, nat) -> Tile)
      requires ExactSize(render)
      modifies this
      ensures this.img == img && Ready()
      ensures square == Filled(halfWidth, Scale(2 * halfWidth, verticalShrink), img.paintColor)
      ensures roundLeft == render(halfWidth, Scale(2 * halfWidth, verticalShrink))
    {
      this.img := img;
      halfWidth := Half(img.boxSize);
      delta := BarInset(halfWidth, verticalShrink);
      SetupEdges(render);
    }

    method SetupEdges(render: (nat, nat) -> Tile)
      requires img != null && ExactSize(render)
      modifies this`square, this`roundLeft, this`roundRight
      ensures square == Filled(halfWidth, Scale(2 * halfWidth, verticalShrink), img.paintColor)
      ensures roundLeft == render(halfWidth, Scale(2 * halfWidth, verticalShrink))
      ensures roundLeft.Valid() && roundRight == FlipLeftRight(roundLeft)
    {
      var width := halfWidth;
      var height := width * 2;
      var shrunkenHeight := Scale(height, verticalShrink);
      square := Filled(width, shrunkenHeight, img.paintColor);
      roundLeft := render(width, shrunkenHeight);
      assert HasSize(roundLeft, width, shrunkenHeight);
      roundRight := FlipLeftRight(roundLeft);
    }

    method DrawRect(box: Box, isActive: Context)
      requires Ready()
      modifies img.canvas.pixels
      ensures forall i, j :: img.canvas.InCanvas(i, j) ==>
        img.canvas.pixels[i, j] == HorizontalPixel(old(img.canvas.pixels[i, j]), Tiles(), halfWidth, delta, box, isActive, i, j)
    {
      if isActive.me {
        var leftRounded := !isActive.w;
        var rightRounded := !isActive.e;

        var left := if leftRounded then roundLeft else square;
        var right := if rightRounded then roundRight else square;
        img.canvas.Paste(left, box.x0, box.y0 + delta);
        img.canvas.Paste(right, box.x0 + halfWidth, box.y0 + delta);
      }
    }
  }
}
