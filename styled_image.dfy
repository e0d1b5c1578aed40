/** StyledPilImage: the canvas a render pass owns, the paint colour the
    drawers use, the choice of canvas mode, and the final pass that applies
    the colour mask and then places the embedded logo. */
module StyledPil {
  import opened Raster
  import opened Geometry
  import opened Imaging

  datatype Option<T> = None | Some(value: T)

  datatype Mode = RGB | RGBA

  /** An image to embed: its bands as getbands() lists them, and what
      Image.resize returns for a requested width and height (Pillow's
      resampling, which is not modelled). */
  datatype EmbeddedImage = EmbeddedImage(bands: seq<string>, resize: (nat, nat) -> Tile) {
    predicate HasAlpha(): (r: bool)
      ensures r <==> exists k :: 0 <= k < |bands| && bands[k] == "A"
    {
      "A" in bands
    }
  }

  /** The colour drawers paint with, for the colour mask to recognise: zero
      in every channel of the background colour, or, for a mask with
      transparency, the background's first three channels made opaque. */
  function PaintColor(back: Color, hasTransparency: bool): (paint: Color)
    ensures !hasTransparency ==> |paint| == |back| && forall k :: 0 <= k < |paint| ==> paint[k] == 0
    ensures hasTransparency && |back| >= 3 ==>
      |paint| == 4 && paint[..3] == back[..3] && paint[3] == 255
    ensures hasTransparency && |back| < 3 ==> paint == back + [255]
  {
    if hasTransparency then
      (if |back| < 3 then back else back[..3]) + [255]
    else
      seq(|back|, _ => 0)
  }

  /** The paint colour can be told apart from the background exactly when the
      background is not all zeros (no transparency), or is not an opaque
      four-channel colour (with transparency). */
  lemma PaintColorDistinguishable(back: Color, hasTransparency: bool)
    ensures PaintColor(back, hasTransparency) == back <==>
      if hasTransparency then |back| == 4 && back[3] == 255
      else forall k :: 0 <= k < |back| ==> back[k] == 0
  {
    var paint := PaintColor(back, hasTransparency);
    if hasTransparency {
      if |back| == 4 && back[3] == 255 {
        assert paint == back[..3] + [back[3]];
        assert back == back[..3] + [back[3]];
      } else if |back| == 4 {
        assert paint[3] != back[3];
      } else {
        assert |paint| != |back|;
      }
    } else if forall k :: 0 <= k < |back| ==> back[k] == 0 {
      assert paint == back;
    } else {
      var k :| 0 <= k < |back| && back[k] != 0;
      assert paint[k] != back[k];
    }
  }

  /** new_image: an RGBA canvas exactly when the mask has transparency or the
      embedded image has an alpha band. */
  function CanvasMode(hasTransparency: bool, embedded: Option<EmbeddedImage>): Mode {
    if hasTransparency || (embedded.Some? && embedded.value.HasAlpha()) then RGBA else RGB
  }

  /** The number of channels of a pixel in each mode. */
  function Channels(m: Mode): nat {
    match m
    case RGB => 3
    case RGBA => 4
  }

  /** With transparency the canvas is RGBA, and the paint colour made from a
      colour of three or more channels is an opaque pixel of that mode. */
  lemma PaintFitsMode(back: Color, hasTransparency: bool, embedded: Option<EmbeddedImage>)
    requires hasTransparency && |back| >= 3
    ensures var paint := PaintColor(back, hasTransparency);
      |paint| == Channels(CanvasMode(hasTransparency, embedded)) && paint[3] == 255
  {
  }

  /** An embedded image with an alpha band, which draw_embeded_image
      alpha-composites, always gets an RGBA canvas; an RGB canvas means no
      transparency and no alpha band to composite. */
  lemma AlphaLogoOnRgbaCanvas(hasTransparency: bool, embedded: Option<EmbeddedImage>)
    ensures embedded.Some? && embedded.value.HasAlpha() ==> CanvasMode(hasTransparency, embedded) == RGBA
    ensures CanvasMode(hasTransparency, embedded) == RGB ==>
      !hasTransparency && (embedded.None? || !embedded.value.HasAlpha())
  {
  }

  /** __init__: an image given directly wins; otherwise a non-empty path is
      opened; otherwise there is no embedded image. */
  function ChosenEmbedded(given: Option<EmbeddedImage>, path: Option<string>,
                          open: string -> EmbeddedImage): (r: Option<EmbeddedImage>)
    ensures given.Some? ==> r == given
    ensures given.None? ==> (r.Some? <==> path.Some? && path.value != "")
  {
    if given.None? && path.Some? && path.value != "" then Some(open(path.value)) else given
  }

  /** Pixel (i, j) after draw_embeded_image, given that it was `p`, for a
      canvas `total` pixels wide. */
  function LogoPixel(p: Color, embedded: Option<EmbeddedImage>, ratio: Ratio, box: nat,
                     total: nat, over: (Color, Color) -> Color, i: int, j: int): (q: Color)
    requires embedded.Some? ==> ExactSize(embedded.value.resize)
    ensures embedded.None? || box == 0 ==> q == p
  {
    match embedded
    case None => p
    case Some(e) =>
      if box == 0 then p
      else
        var pl := LogoPlacement(total, ratio, box);
        var region := e.resize(pl.side, pl.side);
        if e.HasAlpha() then Composited(p, region, pl.offset, pl.offset, i, j, over)
        else Pasted(p, region, pl.offset, pl.offset, i, j)
  }

  /** For a ratio of at most 1 the logo square starts on a module boundary,
      has equal margins and lies inside the canvas; nothing outside it
      changes, and without an alpha band it replaces what was under it. */
  lemma LogoInsideCanvas(p: Color, e: EmbeddedImage, ratio: Ratio, box: Pos, total: nat,
                         over: (Color, Color) -> Color, i: int, j: int)
    requires ratio.num <= ratio.den && ExactSize(e.resize)
    ensures var pl := LogoPlacement(total, ratio, box);
      && 0 <= pl.offset && pl.offset % box == 0 && pl.offset + pl.side == total - pl.offset
      && (!(pl.offset <= i < total - pl.offset && pl.offset <= j < total - pl.offset) ==>
            LogoPixel(p, Some(e), ratio, box, total, over, i, j) == p)
      && (!e.HasAlpha() && pl.offset <= i < total - pl.offset && pl.offset <= j < total - pl.offset ==>
            LogoPixel(p, Some(e), ratio, box, total, over, i, j)
            == e.resize(pl.side, pl.side).px[i - pl.offset][j - pl.offset])
  {
    assert Scale(total, ratio) <= total;
    var pl := LogoPlacement(total, ratio, box);
    assert HasSize(e.resize(pl.side, pl.side), pl.side, pl.side);
  }

  /** process applies the mask first and the logo second: under an opaque
      logo the mask's colours do not survive, and everywhere else the mask's
      colour is what remains. */
  lemma MaskBeforeLogo(p: Color, e: EmbeddedImage, ratio: Ratio, box: Pos, total: nat,
                       over: (Color, Color) -> Color, mask1: (int, int, Color) -> Color,
                       mask2: (int, int, Color) -> Color, i: int, j: int)
    requires ratio.num <= ratio.den && ExactSize(e.resize) && !e.HasAlpha()
    ensures var pl := LogoPlacement(total, ratio, box);
      pl.offset <= i < total - pl.offset && pl.offset <= j < total - pl.offset ==>
        LogoPixel(mask1(j, i, p), Some(e), ratio, box, total, over, i, j)
        == LogoPixel(mask2(j, i, p), Some(e), ratio, box, total, over, i, j)
    ensures var pl := LogoPlacement(total, ratio, box);
      !(pl.offset <= i < total - pl.offset && pl.offset <= j < total - pl.offset) ==>
        LogoPixel(mask1(j, i, p), Some(e), ratio, box, total, over, i, j) == mask1(j, i, p)
  {
    LogoInsideCanvas(mask1(j, i, p), e, ratio, box, total, over, i, j);
    LogoInsideCanvas(mask2(j, i, p), e, ratio, box, total, over, i, j);
  }

  class StyledImage {
    const backColor: Color
    const hasTransparency: bool
    const embedded: Option<EmbeddedImage>
    const embeddedRatio: Ratio
    const boxSize: nat
    const pixelSize: nat
    const paintColor: Color
    const mode: Mode
    /** The Pillow image `_img` every drawer pastes onto. */
    const canvas: Image

    ghost predicate Valid() {
      && canvas.Width() == pixelSize && canvas.Height() == pixelSize
      && (embedded.Some? ==> ExactSize(embedded.value.resize))
      && mode == CanvasMode(hasTransparency, embedded)
    }

    /** __init__ followed by new_image: box_size and pixel_size come from the
        qrcode library, `open` stands for Image.open. The defaults are those of
        the keyword arguments: no image, no path, ratio 0.25, and the
        background of the default SolidFillColorMask, opaque white. */
    constructor (open: string -> EmbeddedImage, boxSize: nat, pixelSize: nat,
                 given: Option<EmbeddedImage> := None, path: Option<string> := None,
                 back: Color := [255, 255, 255], transparency: bool := false,
                 ratio: Ratio := DefaultLogoRatio)
      requires given.Some? ==> ExactSize(given.value.resize)
      requires forall name :: ExactSize(open(name).resize)
      ensures Valid() && fresh(canvas) && fresh(canvas.pixels)
      ensures backColor == back && hasTransparency == transparency && embeddedRatio == ratio
      ensures this.boxSize == boxSize && this.pixelSize == pixelSize
      ensures embedded == ChosenEmbedded(given, path, open)
      ensures paintColor == PaintColor(back, transparency)
      ensures mode == RGBA <==>
        || transparency
        || (given.Some? && given.value.HasAlpha())
        || (given.None? && path.Some? && path.value != "" && open(path.value).HasAlpha())
      ensures forall i, j :: canvas.InCanvas(i, j) ==> canvas.pixels[i, j] == back
    {
      backColor := back;
      hasTransparency := transparency;
      var chosen := ChosenEmbedded(given, path, open);
      embedded := chosen;
      embeddedRatio := ratio;
      paintColor := PaintColor(back, transparency);
      this.boxSize := boxSize;
      this.pixelSize := pixelSize;
      mode := CanvasMode(transparency, chosen);
      canvas := new Image.New(pixelSize, pixelSize, back);
    }

    /** draw_embeded_image. With box_size 0 the offset computation divides by
        zero (ZeroDivisionError): `ok` is false and nothing is drawn. */
    method DrawEmbeddedImage(over: (Color, Color) -> Color) returns (ok: bool)
      requires Valid()
      modifies canvas.pixels
      ensures ok <==> embedded.None? || boxSize > 0
      ensures embedded.Some? && embedded.value.HasAlpha() ==> mode == RGBA
      ensures forall i, j :: canvas.InCanvas(i, j) ==>
        canvas.pixels[i, j] ==
          LogoPixel(old(canvas.pixels[i, j]), embedded, embeddedRatio, boxSize, pixelSize, over, i, j)
    {
      AlphaLogoOnRgbaCanvas(hasTransparency, embedded);
      if embedded.None? {
        return true;
      }
      if boxSize == 0 {
        return false;
      }
      var totalWidth := canvas.Width();
      var placement := LogoPlacement(totalWidth, embeddedRatio, boxSize);
      var region := embedded.value.resize(placement.side, placement.side);
      assert HasSize(region, placement.side, placement.side);
      if embedded.value.HasAlpha() {
        canvas.Composite(region, placement.offset, placement.offset, over);
      } else {
        canvas.Paste(region, placement.offset, placement.offset);
      }
      return true;
    }

    /** process: the colour mask pass (`mask`, pixel (x, y) of colour c
        becomes mask(x, y, c)), then the embedded image if there is one. */
    method Process(mask: (int, int, Color) -> Color, over: (Color, Color) -> Color)
      returns (ok: bool)
      requires Valid()
      modifies canvas.pixels
      ensures ok <==> embedded.None? || boxSize > 0
      ensures forall i, j :: canvas.InCanvas(i, j) ==>
        canvas.pixels[i, j] ==
          LogoPixel(mask(j, i, old(canvas.pixels[i, j])), embedded, embeddedRatio, boxSize,
                    pixelSize, over, i, j)
    {
      canvas.MapPixels(mask);
      ok := true;
      if embedded.Some? {
        ok := DrawEmbeddedImage(over);
      }
    }
  }
}
